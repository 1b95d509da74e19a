/** Sass values on the wire, and the IDs under which lists, functions and mixins are kept for the host. */
module Protofiers {
  import opened Collections
  import opened Wrappers

  /** The bits of a 64-bit float; the protofier never looks inside. */
  type Double = bits: nat | bits < 0x1_0000_0000_0000_0000

  datatype Separator = Comma | Space | Slash | Undecided

  /** A colour: its space, three channels and alpha, each of which may be missing. */
  datatype Color = Color(space: string, channel1: Option<Double>, channel2: Option<Double>, channel3: Option<Double>,
                         alpha: Option<Double>)

  /**
   A Sass value. Argument lists, functions and mixins are objects told apart by
   identity; identity 0 is an argument list that was just created.
   */
  datatype SassValue =
    | SassString(text: string, quoted: bool)
    | SassNumber(value: Double, numerators: seq<string>, denominators: seq<string>)
    | SassColor(color: Color)
    | SassArgumentList(identity: nat, contents: seq<SassValue>, keywords: seq<(string, SassValue)>, separator: Separator)
    | SassList(contents: seq<SassValue>, separator: Separator, brackets: bool)
    | SassMap(entries: seq<(SassValue, SassValue)>)
    | SassFunction(identity: nat)
    | SassMixin(identity: nat)
    | SassBoolean(isTrue: bool)
    | SassNull

  /**
   What the value library decides: Sass equality, which units cancel, and what colour
   is made of a space, channels and alpha, if the space exists and alpha is in range.
   */
  datatype Library = Library(equals: (SassValue, SassValue) -> bool,
                             convert: (string, string) -> Option<Double -> Double>,
                             newColor: Color -> Option<Color>)

  datatype WireSeparator = WireComma | WireSpace | WireSlash | WireUndecided | UnknownSeparator

  datatype Singleton = True | False | Null | UnknownSingleton

  datatype Proto =
    | PString(text: string, quoted: bool)
    | PNumber(value: Double, numerators: seq<string>, denominators: seq<string>)
    | PColor(color: Color)
    | PArgumentList(id: nat, contents: seq<Proto>, wireSeparator: WireSeparator, keywords: seq<(string, Proto)>)
    | PList(contents: seq<Proto>, wireSeparator: WireSeparator, brackets: bool)
    | PMap(entries: seq<(Proto, Proto)>)
    | PCompilerFunction(id: nat)
    | PCompilerMixin(id: nat)
    | PSingleton(singleton: Singleton)
    | PUnset

  datatype Result = Ok(value: SassValue) | Invalid

  const UINT32 := 0x1_0000_0000

  // ---- Registries ----

  class OpaqueRegistry {
    var elements: seq<nat>
    var idsByElement: map<nat, nat>

    constructor ()
      ensures Valid() && elements == []
    {
      elements, idsByElement := [], map[];
    }

    predicate Valid()
      reads this
    {
      && (forall e <- idsByElement :: idsByElement[e] < |elements| && elements[idsByElement[e]] == e)
      && (forall i | 0 <= i < |elements| :: elements[i] in idsByElement && idsByElement[elements[i]] == i)
    }

    /** The ID of an element: the one it got before, or the next one. IDs are never reassigned. */
    method GetId(element: nat) returns (id: nat)
      requires Valid()
      modifies this
      ensures Valid() && old(elements) <= elements
      ensures id < |elements| && elements[id] == element
      ensures element in old(elements) ==> elements == old(elements)
      ensures element !in old(elements) ==> elements == old(elements) + [element]
    {
      if element in idsByElement {
        return idsByElement[element];
      }
      id := |elements|;
      elements := elements + [element];
      idsByElement := idsByElement[element := id];
    }

    method Get(id: nat) returns (element: Option<nat>)
      ensures element == if id < |elements| then Some(elements[id]) else None
    {
      if id >= |elements| {
        return None;
      }
      return Some(elements[id]);
    }
  }

  // ---- What an encoding means ----

  function WireOf(s: Separator): WireSeparator {
    match s
    case Comma => WireComma
    case Space => WireSpace
    case Slash => WireSlash
    case Undecided => WireUndecided
  }

  function SeparatorOf(w: WireSeparator): Option<Separator> {
    match w
    case WireComma => Some(Comma)
    case WireSpace => Some(Space)
    case WireSlash => Some(Slash)
    case WireUndecided => Some(Undecided)
    case UnknownSeparator => None
  }

  /** The separators of the protocol are those of Sass, one for one. */
  predicate OnWire(s: Separator, w: WireSeparator) {
    || (s == Comma && w == WireComma) || (s == Space && w == WireSpace)
    || (s == Slash && w == WireSlash) || (s == Undecided && w == WireUndecided)
  }

  lemma SeparatorsOnWire(s: Separator, w: WireSeparator)
    ensures OnWire(s, WireOf(s))
    ensures OnWire(s, w) <==> w == WireOf(s)
    ensures OnWire(s, w) <==> SeparatorOf(w) == Some(s)
  {}

  /** What the IDs in an encoding refer to. */
  datatype Tables = Tables(lists: seq<SassValue>, functions: seq<nat>, mixins: seq<nat>) {
    predicate Before(later: Tables) { lists <= later.lists && functions <= later.functions && mixins <= later.mixins }

    predicate Fits() { |lists| < UINT32 && |functions| <= UINT32 && |mixins| <= UINT32 }
  }

  /** `p` stands for `v`, given what the IDs refer to. */
  ghost predicate Encodes(v: SassValue, p: Proto, t: Tables)
    decreases v
  {
    match v
    case SassString(text, quoted) => p == PString(text, quoted)
    case SassNumber(value, numerators, denominators) => p == PNumber(value, numerators, denominators)
    case SassColor(color) => p == PColor(color)
    case SassArgumentList(_, contents, keywords, separator) =>
      && p.PArgumentList? && 1 <= p.id <= |t.lists| && t.lists[p.id - 1] == v && OnWire(separator, p.wireSeparator)
      && |p.contents| == |contents| && (forall i | 0 <= i < |contents| :: Encodes(contents[i], p.contents[i], t))
      && |p.keywords| == |keywords|
      && (forall i | 0 <= i < |keywords| :: p.keywords[i].0 == keywords[i].0 && Encodes(keywords[i].1, p.keywords[i].1, t))
    case SassList(contents, separator, brackets) =>
      && p.PList? && OnWire(separator, p.wireSeparator) && p.brackets == brackets
      && |p.contents| == |contents| && (forall i | 0 <= i < |contents| :: Encodes(contents[i], p.contents[i], t))
    case SassMap(entries) =>
      && p.PMap? && |p.entries| == |entries|
      && (forall i | 0 <= i < |entries| ::
            Encodes(entries[i].0, p.entries[i].0, t) && Encodes(entries[i].1, p.entries[i].1, t))
    case SassFunction(identity) => p.PCompilerFunction? && p.id < |t.functions| && t.functions[p.id] == identity
    case SassMixin(identity) => p.PCompilerMixin? && p.id < |t.mixins| && t.mixins[p.id] == identity
    case SassBoolean(isTrue) => p == PSingleton(if isTrue then True else False)
    case SassNull => p == PSingleton(Null)
  }

  /** Later calls only add to the tables, so an encoding keeps its meaning. */
  lemma {:induction false} EncodesLater(v: SassValue, p: Proto, t: Tables, later: Tables)
    requires Encodes(v, p, t) && t.Before(later)
    ensures Encodes(v, p, later)
    decreases v
  {
    match v
    case SassArgumentList(_, contents, keywords, _) =>
      forall i | 0 <= i < |contents| ensures Encodes(contents[i], p.contents[i], later) {
        EncodesLater(contents[i], p.contents[i], t, later);
      }
      forall i | 0 <= i < |keywords| ensures Encodes(keywords[i].1, p.keywords[i].1, later) {
        EncodesLater(keywords[i].1, p.keywords[i].1, t, later);
      }
    case SassList(contents, _, _) =>
      forall i | 0 <= i < |contents| ensures Encodes(contents[i], p.contents[i], later) {
        EncodesLater(contents[i], p.contents[i], t, later);
      }
    case SassMap(entries) =>
      forall i | 0 <= i < |entries|
        ensures Encodes(entries[i].0, p.entries[i].0, later) && Encodes(entries[i].1, p.entries[i].1, later)
      {
        EncodesLater(entries[i].0, p.entries[i].0, t, later);
        EncodesLater(entries[i].1, p.entries[i].1, t, later);
      }
    case _ =>
  }

  // ---- What a decoding means ----

  predicate IsPermutation(order: seq<nat>, n: nat) {
    && |order| == n && (forall i | 0 <= i < n :: order[i] < n)
    && (forall i, j | 0 <= i < j < n :: order[i] != order[j])
  }

  function Reordered<T>(s: seq<T>, order: seq<nat>): seq<T>
    requires forall i | 0 <= i < |order| :: order[i] < |s|
  {
    seq(|order|, i requires 0 <= i < |order| => s[order[i]])
  }

  predicate HasKey(lib: Library, entries: seq<(SassValue, SassValue)>, key: SassValue) {
    exists i | 0 <= i < |entries| :: lib.equals(entries[i].0, key)
  }

  /** The entries in order, without those whose key is already there. */
  function KeepFirst(lib: Library, entries: seq<(SassValue, SassValue)>): seq<(SassValue, SassValue)> {
    if entries == [] then []
    else
      var kept, last := KeepFirst(lib, entries[..|entries| - 1]), entries[|entries| - 1];
      if HasKey(lib, kept, last.0) then kept else kept + [last]
  }

  /** The first numerator the unit converts to, or the number of numerators. */
  function FirstConvertible(lib: Library, unit: string, numerators: seq<string>): (i: nat)
    ensures i <= |numerators| && (i < |numerators| ==> lib.convert(unit, numerators[i]).Some?)
    ensures forall j | 0 <= j < i :: lib.convert(unit, numerators[j]).None?
  {
    if numerators == [] || lib.convert(unit, numerators[0]).Some? then 0
    else 1 + FirstConvertible(lib, unit, numerators[1..])
  }

  /** Cancels each denominator with the first numerator it converts to. */
  function Simplified(lib: Library, value: Double, numerators: seq<string>, denominators: seq<string>): (r: SassValue)
    ensures r.SassNumber?
    decreases |denominators|
  {
    if denominators == [] then SassNumber(value, numerators, [])
    else
      var i := FirstConvertible(lib, denominators[0], numerators);
      if i < |numerators| then
        var factor := lib.convert(denominators[0], numerators[i]).value;
        Simplified(lib, factor(value), numerators[..i] + numerators[i + 1..], denominators[1..])
      else
        var rest := Simplified(lib, value, numerators, denominators[1..]);
        SassNumber(rest.value, rest.numerators, [denominators[0]] + rest.denominators)
  }

  function WithKeywords(keys: seq<(string, Proto)>, values: seq<SassValue>): seq<(string, SassValue)>
    requires |keys| == |values|
  {
    seq(|keys|, i requires 0 <= i < |keys| => (keys[i].0, values[i]))
  }

  ghost predicate AllDecoded(lib: Library, ps: seq<Proto>, vs: seq<SassValue>, t: Tables)
    decreases ps, 0
  {
    |ps| == |vs| && forall i | 0 <= i < |ps| :: Decoded(lib, ps[i], vs[i], t)
  }

  /** `v` is a value that decoding `p` may give; Go visits maps in any order. */
  ghost predicate Decoded(lib: Library, p: Proto, v: SassValue, t: Tables)
    decreases p, 1
  {
    match p
    case PString(text, quoted) => v == SassString(text, quoted)
    case PNumber(value, numerators, denominators) => v == Simplified(lib, value, numerators, denominators)
    case PColor(color) => lib.newColor(color).Some? && v == SassColor(lib.newColor(color).value)
    case PArgumentList(id, contents, wireSeparator, keywords) =>
      if id != 0 then id <= |t.lists| && v == t.lists[id - 1]
      else
        && v.SassArgumentList? && v.identity == 0 && OnWire(v.separator, wireSeparator)
        && AllDecoded(lib, contents, v.contents, t)
        && (exists order: seq<nat>, decoded: seq<SassValue> ::
              && IsPermutation(order, |keywords|) && |decoded| == |keywords|
              && (forall i | 0 <= i < |keywords| :: Decoded(lib, keywords[i].1, decoded[i], t))
              && v.keywords == Reordered(WithKeywords(keywords, decoded), order))
    case PList(contents, wireSeparator, brackets) =>
      && v.SassList? && OnWire(v.separator, wireSeparator) && v.brackets == brackets
      && AllDecoded(lib, contents, v.contents, t)
    case PMap(entries) =>
      exists order: seq<nat>, decoded: seq<(SassValue, SassValue)> ::
        && IsPermutation(order, |entries|) && |decoded| == |entries|
        && (forall i | 0 <= i < |entries| ::
              Decoded(lib, entries[i].0, decoded[i].0, t) && Decoded(lib, entries[i].1, decoded[i].1, t))
        && v == SassMap(KeepFirst(lib, Reordered(decoded, order)))
    case PCompilerFunction(id) => id < |t.functions| && v == SassFunction(t.functions[id])
    case PCompilerMixin(id) => id < |t.mixins| && v == SassMixin(t.mixins[id])
    case PUnset => false
    case PSingleton(singleton) =>
      match singleton
      case True => v == SassBoolean(true)
      case False => v == SassBoolean(false)
      case Null => v == SassNull
      case UnknownSingleton => false
  }

  /** Whether decoding succeeds. */
  predicate Decodable(lib: Library, p: Proto, t: Tables)
    decreases p
  {
    match p
    case PString(_, _) => true
    case PNumber(_, _, _) => true
    case PColor(color) => lib.newColor(color).Some?
    case PArgumentList(id, contents, wireSeparator, keywords) =>
      if id != 0 then id <= |t.lists|
      else
        && !wireSeparator.UnknownSeparator? && (wireSeparator.WireUndecided? ==> |contents| <= 1)
        && (forall i | 0 <= i < |contents| :: Decodable(lib, contents[i], t))
        && (forall i | 0 <= i < |keywords| :: Decodable(lib, keywords[i].1, t))
    case PList(contents, wireSeparator, _) =>
      && !wireSeparator.UnknownSeparator? && (wireSeparator.WireUndecided? ==> |contents| <= 1)
      && (forall i | 0 <= i < |contents| :: Decodable(lib, contents[i], t))
    case PMap(entries) => forall i | 0 <= i < |entries| :: Decodable(lib, entries[i].0, t) && Decodable(lib, entries[i].1, t)
    case PCompilerFunction(id) => id < |t.functions|
    case PCompilerMixin(id) => id < |t.mixins|
    case PSingleton(singleton) => !singleton.UnknownSingleton?
    case PUnset => false
  }

  /** What is decoded on the way to decoding `p`; a list that is named by its ID is not looked into. */
  ghost predicate PartOf(q: Proto, p: Proto)
    decreases p
  {
    || q == p
    || match p
       case PArgumentList(id, contents, _, keywords) =>
         id == 0 && ((exists i | 0 <= i < |contents| :: PartOf(q, contents[i]))
                     || exists i | 0 <= i < |keywords| :: PartOf(q, keywords[i].1))
       case PList(contents, _, _) => exists i | 0 <= i < |contents| :: PartOf(q, contents[i])
       case PMap(entries) => exists i | 0 <= i < |entries| :: PartOf(q, entries[i].0) || PartOf(q, entries[i].1)
       case _ => false
  }

  /** What is wrong with one part, apart from what is wrong inside it. */
  predicate Defective(lib: Library, q: Proto, t: Tables) {
    || (q.PColor? && lib.newColor(q.color).None?)
    || (q.PArgumentList? && q.id > |t.lists|)
    || (((q.PArgumentList? && q.id == 0) || q.PList?)
        && (q.wireSeparator.UnknownSeparator? || (q.wireSeparator.WireUndecided? && |q.contents| > 1)))
    || (q.PCompilerFunction? && q.id >= |t.functions|)
    || (q.PCompilerMixin? && q.id >= |t.mixins|)
    || (q.PSingleton? && q.singleton.UnknownSingleton?)
    || q.PUnset?
  }

  /** Decoding fails exactly if something to be decoded is defective. */
  lemma {:induction false} FailsOnDefects(lib: Library, p: Proto, t: Tables)
    ensures Decodable(lib, p, t) <==> forall q | PartOf(q, p) :: !Defective(lib, q, t)
    decreases p
  {
    assert PartOf(p, p);
    match p
    case PArgumentList(id, contents, _, keywords) =>
      if id == 0 {
        forall i | 0 <= i < |contents|
          ensures Decodable(lib, contents[i], t) <==> forall q | PartOf(q, contents[i]) :: !Defective(lib, q, t)
        {
          FailsOnDefects(lib, contents[i], t);
        }
        forall i | 0 <= i < |keywords|
          ensures Decodable(lib, keywords[i].1, t) <==> forall q | PartOf(q, keywords[i].1) :: !Defective(lib, q, t)
        {
          FailsOnDefects(lib, keywords[i].1, t);
        }
        PartsOfList(p);
      }
    case PList(contents, _, _) =>
      forall i | 0 <= i < |contents|
        ensures Decodable(lib, contents[i], t) <==> forall q | PartOf(q, contents[i]) :: !Defective(lib, q, t)
      {
        FailsOnDefects(lib, contents[i], t);
      }
    case PMap(entries) =>
      forall i | 0 <= i < |entries|
        ensures Decodable(lib, entries[i].0, t) <==> forall q | PartOf(q, entries[i].0) :: !Defective(lib, q, t)
        ensures Decodable(lib, entries[i].1, t) <==> forall q | PartOf(q, entries[i].1) :: !Defective(lib, q, t)
      {
        FailsOnDefects(lib, entries[i].0, t);
        FailsOnDefects(lib, entries[i].1, t);
      }
    case _ =>
  }

  lemma PartsOfList(p: Proto)
    requires p.PArgumentList? && p.id == 0
    ensures forall i, q | 0 <= i < |p.contents| && PartOf(q, p.contents[i]) :: PartOf(q, p)
    ensures forall i, q | 0 <= i < |p.keywords| && PartOf(q, p.keywords[i].1) :: PartOf(q, p)
  {}

  // ---- Units that cancel ----

  /** One denominator cancels with one numerator, at the price of a conversion. */
  ghost predicate CancelsOne(lib: Library, a: SassValue, b: SassValue, d: nat, n: nat) {
    && a.SassNumber? && d < |a.denominators| && n < |a.numerators|
    && var factor := lib.convert(a.denominators[d], a.numerators[n]);
       factor.Some? && b == SassNumber(factor.value(a.value), a.numerators[..n] + a.numerators[n + 1..],
                                       a.denominators[..d] + a.denominators[d + 1..])
  }

  ghost predicate CancelsTo(lib: Library, a: SassValue, b: SassValue, steps: nat)
    decreases steps
  {
    if steps == 0 then a == b
    else exists mid, d: nat, n: nat :: CancelsOne(lib, a, mid, d, n) && CancelsTo(lib, mid, b, steps - 1)
  }

  function Behind(unit: string, a: SassValue): SassValue
    requires a.SassNumber?
  {
    SassNumber(a.value, a.numerators, [unit] + a.denominators)
  }

  lemma OneCancelsBehind(lib: Library, unit: string, a: SassValue, b: SassValue, d: nat, n: nat)
    requires CancelsOne(lib, a, b, d, n)
    ensures CancelsOne(lib, Behind(unit, a), Behind(unit, b), d + 1, n)
  {
    var before := Behind(unit, a);
    assert before.denominators[..d + 1] == [unit] + a.denominators[..d];
    assert before.denominators[d + 2..] == a.denominators[d + 1..];
    assert before.denominators[..d + 1] + before.denominators[d + 2..] == Behind(unit, b).denominators;
  }

  /** Cancelling with one more denominator in front that has nothing to cancel with. */
  lemma {:induction false} CancelsBehind(lib: Library, unit: string, a: SassValue, b: SassValue, steps: nat)
    requires a.SassNumber? && b.SassNumber? && CancelsTo(lib, a, b, steps)
    ensures CancelsTo(lib, Behind(unit, a), Behind(unit, b), steps)
    decreases steps
  {
    hide CancelsOne;
    if steps > 0 {
      var mid, d: nat, n: nat :| CancelsOne(lib, a, mid, d, n) && CancelsTo(lib, mid, b, steps - 1);
      assert mid.SassNumber? by { CancelsToNumber(lib, a, mid, d, n); }
      CancelsBehind(lib, unit, mid, b, steps - 1);
      OneCancelsBehind(lib, unit, a, mid, d, n);
    }
  }

  lemma CancelsToNumber(lib: Library, a: SassValue, b: SassValue, d: nat, n: nat)
    requires CancelsOne(lib, a, b, d, n)
    ensures b.SassNumber?
  {}

  lemma FirstCancels(lib: Library, value: Double, numerators: seq<string>, denominators: seq<string>, i: nat, b: SassValue,
                     steps: nat)
    requires denominators != [] && i < |numerators| && lib.convert(denominators[0], numerators[i]).Some?
    requires var factor := lib.convert(denominators[0], numerators[i]).value;
             CancelsTo(lib, SassNumber(factor(value), numerators[..i] + numerators[i + 1..], denominators[1..]), b, steps)
    ensures CancelsTo(lib, SassNumber(value, numerators, denominators), b, steps + 1)
  {
    hide CancelsTo;
    var factor := lib.convert(denominators[0], numerators[i]).value;
    var mid := SassNumber(factor(value), numerators[..i] + numerators[i + 1..], denominators[1..]);
    assert denominators[..0] + denominators[1..] == denominators[1..];
    assert CancelsOne(lib, SassNumber(value, numerators, denominators), mid, 0, i);
    OneMoreCancel(lib, SassNumber(value, numerators, denominators), mid, b, 0, i, steps);
  }

  lemma OneMoreCancel(lib: Library, a: SassValue, mid: SassValue, b: SassValue, d: nat, n: nat, steps: nat)
    requires CancelsOne(lib, a, mid, d, n) && CancelsTo(lib, mid, b, steps)
    ensures CancelsTo(lib, a, b, steps + 1)
  {
    hide CancelsOne;
  }

  /** Decoding a number cancels units, one conversion each, until nothing is left to cancel. */
  lemma {:induction false} SimplifiedCancels(lib: Library, value: Double, numerators: seq<string>, denominators: seq<string>)
    returns (steps: nat)
    ensures CancelsTo(lib, SassNumber(value, numerators, denominators), Simplified(lib, value, numerators, denominators), steps)
    decreases |denominators|
  {
    hide CancelsTo;
    if denominators == [] {
      steps := 0;
      NothingCancels(lib, SassNumber(value, numerators, denominators));
    } else {
      var i, rest := FirstConvertible(lib, denominators[0], numerators), denominators[1..];
      if i < |numerators| {
        var factor, fewer := lib.convert(denominators[0], numerators[i]).value, numerators[..i] + numerators[i + 1..];
        steps := SimplifiedCancels(lib, factor(value), fewer, rest);
        FirstCancels(lib, value, numerators, denominators, i, Simplified(lib, factor(value), fewer, rest), steps);
        steps := steps + 1;
      } else {
        steps := SimplifiedCancels(lib, value, numerators, rest);
        CancelsBehind(lib, denominators[0], SassNumber(value, numerators, rest), Simplified(lib, value, numerators, rest), steps);
        assert [denominators[0]] + rest == denominators;
      }
    }
  }

  lemma NothingCancels(lib: Library, a: SassValue)
    ensures CancelsTo(lib, a, a, 0)
  {}

  lemma {:induction false} SimplifiedIsIrreducible(lib: Library, value: Double, numerators: seq<string>, denominators: seq<string>)
    ensures var r := Simplified(lib, value, numerators, denominators);
            Irreducible(lib, r.numerators, r.denominators) && forall u <- r.numerators :: u in numerators
    decreases |denominators|
  {
    if denominators != [] {
      var i, rest := FirstConvertible(lib, denominators[0], numerators), denominators[1..];
      if i < |numerators| {
        var factor, fewer := lib.convert(denominators[0], numerators[i]).value, numerators[..i] + numerators[i + 1..];
        SimplifiedIsIrreducible(lib, factor(value), fewer, rest);
      } else {
        SimplifiedIsIrreducible(lib, value, numerators, rest);
        var r := Simplified(lib, value, numerators, rest);
        forall k | 0 <= k < |r.numerators| ensures lib.convert(denominators[0], r.numerators[k]).None? {
          assert r.numerators[k] in numerators;
          var j :| 0 <= j < |numerators| && numerators[j] == r.numerators[k];
        }
      }
    }
  }

  // ---- Keys that repeat ----

  /** The first entry of a key is kept, and of no key more than one. */
  lemma {:induction false} FirstIsKept(lib: Library, entries: seq<(SassValue, SassValue)>, i: nat)
    requires i < |entries| && forall j | 0 <= j < i :: !lib.equals(entries[j].0, entries[i].0)
    ensures entries[i] in KeepFirst(lib, entries)
  {
    var n := |entries| - 1;
    KeptAreEntries(lib, entries[..n]);
    if i < n {
      FirstIsKept(lib, entries[..n], i);
    } else {
      var kept := KeepFirst(lib, entries[..n]);
      forall k | 0 <= k < |kept| ensures !lib.equals(kept[k].0, entries[n].0) {
        assert kept[k] in kept;
      }
    }
  }

  /** No key equals one before it. */
  predicate NoneRepeats(lib: Library, entries: seq<(SassValue, SassValue)>) {
    forall i | 0 <= i < |entries| :: !HasKey(lib, entries[..i], entries[i].0)
  }

  lemma {:induction false} KeptAreEntries(lib: Library, entries: seq<(SassValue, SassValue)>)
    ensures forall e <- KeepFirst(lib, entries) :: exists j | 0 <= j < |entries| :: entries[j] == e
    ensures NoneRepeats(lib, KeepFirst(lib, entries))
  {
    hide HasKey;
    if entries != [] {
      var n := |entries| - 1;
      KeptAreEntries(lib, entries[..n]);
      var before, kept := KeepFirst(lib, entries[..n]), KeepFirst(lib, entries);
      forall k | 0 <= k < |kept| ensures !HasKey(lib, kept[..k], kept[k].0) {
        if k < |before| {
          assert kept[..k] == before[..k] && kept[k] == before[k];
        } else {
          assert kept[..k] == before;
        }
      }
      forall e | e in KeepFirst(lib, entries) ensures exists j | 0 <= j < |entries| :: entries[j] == e {
        if e in before {
          var j :| 0 <= j < n && entries[..n][j] == e;
          assert entries[j] == e;
        } else {
          assert entries[n] == e;
        }
      }
    }
  }

  // ---- The round trip ----

  /** Equal up to the order of map entries. */
  ghost predicate Same(v: SassValue, w: SassValue)
    decreases v
  {
    match v
    case SassList(contents, separator, brackets) =>
      && w.SassList? && w.separator == separator && w.brackets == brackets && |w.contents| == |contents|
      && (forall i | 0 <= i < |contents| :: Same(contents[i], w.contents[i]))
    case SassMap(entries) =>
      && w.SassMap? && |w.entries| == |entries|
      && exists order: seq<nat> :: IsPermutation(order, |entries|) &&
           forall i | 0 <= i < |entries| :: Same(entries[order[i]].0, w.entries[i].0) && Same(entries[order[i]].1, w.entries[i].1)
    case _ => v == w
  }

  /** The library's equality does not look at the order of map entries. */
  ghost predicate OrderBlind(lib: Library) {
    forall a, b, c, d :: Same(a, b) && Same(c, d) ==> lib.equals(a, c) == lib.equals(b, d)
  }

  /** No unit of the number cancels with another. */
  predicate Irreducible(lib: Library, numerators: seq<string>, denominators: seq<string>) {
    forall i, j | 0 <= i < |denominators| && 0 <= j < |numerators| :: lib.convert(denominators[i], numerators[j]).None?
  }

  predicate DistinctKeys(lib: Library, entries: seq<(SassValue, SassValue)>) {
    forall i, j | 0 <= i < |entries| && 0 <= j < |entries| && i != j :: !lib.equals(entries[i].0, entries[j].0)
  }

  /**
   What holds of every value: lists have a separator, maps distinct keys, numbers no
   units left to cancel, and colours channels that are normalized already.
   */
  predicate WellFormed(lib: Library, v: SassValue)
    decreases v
  {
    match v
    case SassNumber(_, numerators, denominators) => Irreducible(lib, numerators, denominators)
    case SassColor(color) => lib.newColor(color) == Some(color)
    case SassList(contents, separator, _) =>
      (separator.Undecided? ==> |contents| <= 1) && forall i | 0 <= i < |contents| :: WellFormed(lib, contents[i])
    case SassMap(entries) =>
      DistinctKeys(lib, entries) &&
      forall i | 0 <= i < |entries| :: WellFormed(lib, entries[i].0) && WellFormed(lib, entries[i].1)
    case _ => true
  }

  lemma {:induction false} IrreducibleStays(lib: Library, value: Double, numerators: seq<string>, denominators: seq<string>)
    requires Irreducible(lib, numerators, denominators)
    ensures Simplified(lib, value, numerators, denominators) == SassNumber(value, numerators, denominators)
    decreases |denominators|
  {
    if denominators != [] {
      assert forall i, j | 0 <= i < |denominators[1..]| && 0 <= j < |numerators| ::
          lib.convert(denominators[1..][i], numerators[j]) == lib.convert(denominators[i + 1], numerators[j]);
      IrreducibleStays(lib, value, numerators, denominators[1..]);
      assert [denominators[0]] + denominators[1..] == denominators;
    }
  }

  lemma {:induction false} DistinctAreKept(lib: Library, entries: seq<(SassValue, SassValue)>)
    requires DistinctKeys(lib, entries)
    ensures KeepFirst(lib, entries) == entries
  {
    if entries != [] {
      var n := |entries| - 1;
      assert entries == entries[..n] + [entries[n]];
      DistinctAreKept(lib, entries[..n]);
      forall i | 0 <= i < n ensures !lib.equals(entries[..n][i].0, entries[n].0) {
        assert entries[..n][i] == entries[i];
      }
    }
  }

  /** Every encoding of a value can be decoded. */
  lemma {:induction false} EncodedIsDecodable(lib: Library, v: SassValue, p: Proto, t: Tables)
    requires Encodes(v, p, t) && WellFormed(lib, v)
    ensures Decodable(lib, p, t)
    decreases v
  {
    match v
    case SassList(contents, _, _) =>
      forall i | 0 <= i < |contents| ensures Decodable(lib, p.contents[i], t) {
        EncodedIsDecodable(lib, contents[i], p.contents[i], t);
      }
    case SassMap(entries) =>
      forall i | 0 <= i < |entries| ensures Decodable(lib, p.entries[i].0, t) && Decodable(lib, p.entries[i].1, t) {
        EncodedIsDecodable(lib, entries[i].0, p.entries[i].0, t);
        EncodedIsDecodable(lib, entries[i].1, p.entries[i].1, t);
      }
    case _ =>
  }

  /** Whatever decoding gives for the encoding of a value is that value, up to map order. */
  lemma {:induction false} DecodesToSame(lib: Library, v: SassValue, p: Proto, w: SassValue, t: Tables)
    requires OrderBlind(lib) && WellFormed(lib, v)
    requires Encodes(v, p, t) && Decoded(lib, p, w, t)
    ensures Same(v, w)
    decreases v
  {
    match v
    case SassNumber(value, numerators, denominators) =>
      IrreducibleStays(lib, value, numerators, denominators);
    case SassList(contents, _, _) =>
      forall i | 0 <= i < |contents| ensures Same(contents[i], w.contents[i]) {
        DecodesToSame(lib, contents[i], p.contents[i], w.contents[i], t);
      }
    case SassMap(entries) =>
      var order: seq<nat>, decoded: seq<(SassValue, SassValue)> :|
        && IsPermutation(order, |p.entries|) && |decoded| == |p.entries|
        && (forall i | 0 <= i < |p.entries| ::
              Decoded(lib, p.entries[i].0, decoded[i].0, t) && Decoded(lib, p.entries[i].1, decoded[i].1, t))
        && w == SassMap(KeepFirst(lib, Reordered(decoded, order)));
      forall i | 0 <= i < |entries| ensures Same(entries[i].0, decoded[i].0) && Same(entries[i].1, decoded[i].1) {
        DecodesToSame(lib, entries[i].0, p.entries[i].0, decoded[i].0, t);
        DecodesToSame(lib, entries[i].1, p.entries[i].1, decoded[i].1, t);
      }
      MapIsSame(lib, entries, decoded, order);
    case _ =>
  }

  lemma MapIsSame(lib: Library, entries: seq<(SassValue, SassValue)>, decoded: seq<(SassValue, SassValue)>, order: seq<nat>)
    requires OrderBlind(lib) && DistinctKeys(lib, entries) && |decoded| == |entries| && IsPermutation(order, |entries|)
    requires forall i | 0 <= i < |entries| :: Same(entries[i].0, decoded[i].0) && Same(entries[i].1, decoded[i].1)
    ensures Same(SassMap(entries), SassMap(KeepFirst(lib, Reordered(decoded, order))))
  {
    hide Same, OrderBlind, KeepFirst;
    var shuffled := Reordered(decoded, order);
    ShuffledAreDistinct(lib, entries, decoded, order);
    DistinctAreKept(lib, shuffled);
    ShuffledIsSame(entries, shuffled, order);
  }

  lemma ShuffledAreDistinct(lib: Library, entries: seq<(SassValue, SassValue)>, decoded: seq<(SassValue, SassValue)>,
                            order: seq<nat>)
    requires OrderBlind(lib) && DistinctKeys(lib, entries) && |decoded| == |entries| && IsPermutation(order, |entries|)
    requires forall i | 0 <= i < |entries| :: Same(entries[i].0, decoded[i].0)
    ensures DistinctKeys(lib, Reordered(decoded, order))
  {
    hide Same;
    var shuffled := Reordered(decoded, order);
    forall i, j | 0 <= i < |shuffled| && 0 <= j < |shuffled| && i != j
      ensures !lib.equals(shuffled[i].0, shuffled[j].0)
    {
      assert order[i] != order[j];
      assert lib.equals(entries[order[i]].0, entries[order[j]].0) == lib.equals(decoded[order[i]].0, decoded[order[j]].0);
    }
  }

  lemma ShuffledIsSame(entries: seq<(SassValue, SassValue)>, shuffled: seq<(SassValue, SassValue)>, order: seq<nat>)
    requires IsPermutation(order, |entries|) && |shuffled| == |entries|
    requires forall i | 0 <= i < |entries| ::
               Same(entries[order[i]].0, shuffled[i].0) && Same(entries[order[i]].1, shuffled[i].1)
    ensures Same(SassMap(entries), SassMap(shuffled))
  {}

  /** Keywords that come back in some order. */
  ghost predicate SameKeywords(keywords: seq<(string, SassValue)>, after: seq<(string, SassValue)>, order: seq<nat>) {
    && |after| == |keywords| && IsPermutation(order, |keywords|)
    && forall i | 0 <= i < |keywords| :: after[i].0 == keywords[order[i]].0 && Same(keywords[order[i]].1, after[i].1)
  }

  lemma DecodedKeywords(lib: Library, keywords: seq<(string, SassValue)>, keys: seq<(string, Proto)>,
                        decoded: seq<SassValue>, order: seq<nat>, t: Tables)
    requires OrderBlind(lib) && forall k <- keywords :: WellFormed(lib, k.1)
    requires |keys| == |keywords| == |decoded| && IsPermutation(order, |keywords|)
    requires forall i | 0 <= i < |keywords| ::
               keys[i].0 == keywords[i].0 && Encodes(keywords[i].1, keys[i].1, t) && Decoded(lib, keys[i].1, decoded[i], t)
    ensures SameKeywords(keywords, Reordered(WithKeywords(keys, decoded), order), order)
  {
    hide Same, WellFormed, OrderBlind, Encodes, Decoded;
    forall i | 0 <= i < |keywords| ensures Same(keywords[i].1, decoded[i]) {
      DecodesToSame(lib, keywords[i].1, keys[i].1, decoded[i], t);
    }
  }

  /** An argument list the host makes up is decoded to what its parts stand for. */
  lemma NewListDecodes(lib: Library, contents: seq<SassValue>, keywords: seq<(string, SassValue)>, separator: Separator,
                       p: Proto, w: SassValue, t: Tables)
    requires OrderBlind(lib) && (forall v <- contents :: WellFormed(lib, v)) && forall k <- keywords :: WellFormed(lib, k.1)
    requires p.PArgumentList? && p.id == 0 && OnWire(separator, p.wireSeparator) && Decoded(lib, p, w, t)
    requires |p.contents| == |contents| && |p.keywords| == |keywords|
    requires forall i | 0 <= i < |contents| :: Encodes(contents[i], p.contents[i], t)
    requires forall i | 0 <= i < |keywords| :: p.keywords[i].0 == keywords[i].0 && Encodes(keywords[i].1, p.keywords[i].1, t)
    ensures w.SassArgumentList? && w.separator == separator && |w.contents| == |contents|
    ensures forall i | 0 <= i < |contents| :: Same(contents[i], w.contents[i])
    ensures exists order :: SameKeywords(keywords, w.keywords, order)
  {
    hide Same, WellFormed, OrderBlind, Encodes, SameKeywords;
    forall i | 0 <= i < |contents| ensures Same(contents[i], w.contents[i]) {
      DecodesToSame(lib, contents[i], p.contents[i], w.contents[i], t);
    }
    var order: seq<nat>, decoded: seq<SassValue> :|
      && IsPermutation(order, |p.keywords|) && |decoded| == |p.keywords|
      && (forall i | 0 <= i < |p.keywords| :: Decoded(lib, p.keywords[i].1, decoded[i], t))
      && w.keywords == Reordered(WithKeywords(p.keywords, decoded), order);
    hide Decoded;
    DecodedKeywords(lib, keywords, p.keywords, decoded, order, t);
  }

  /** The argument lists in a value, each before those inside it. */
  function ListsIn(v: SassValue): seq<SassValue>
    decreases v, 1
  {
    match v
    case SassArgumentList(_, contents, keywords, _) =>
      [v] + ListsInAll(contents, |contents|) + ListsInKeywords(v, |keywords|)
    case SassList(contents, _, _) => ListsInAll(contents, |contents|)
    case SassMap(entries) => ListsInEntries(v, |entries|)
    case _ => []
  }

  function ListsInAll(vs: seq<SassValue>, k: nat): seq<SassValue>
    requires k <= |vs|
    decreases vs, 0, k
  {
    if k == 0 then [] else ListsInAll(vs, k - 1) + ListsIn(vs[k - 1])
  }

  function ListsInKeywords(list: SassValue, k: nat): seq<SassValue>
    requires list.SassArgumentList? && k <= |list.keywords|
    decreases list, 0, k
  {
    if k == 0 then [] else ListsInKeywords(list, k - 1) + ListsIn(list.keywords[k - 1].1)
  }

  function ListsInEntries(sassMap: SassValue, k: nat): seq<SassValue>
    requires sassMap.SassMap? && k <= |sassMap.entries|
    decreases sassMap, 0, k
  {
    if k == 0 then []
    else ListsInEntries(sassMap, k - 1) + ListsIn(sassMap.entries[k - 1].0) + ListsIn(sassMap.entries[k - 1].1)
  }

  lemma ListsOutside(v: SassValue)
    ensures v.SassList? ==> ListsIn(v) == ListsInAll(v.contents, |v.contents|)
    ensures v.SassMap? ==> ListsIn(v) == ListsInEntries(v, |v.entries|)
    ensures !v.SassArgumentList? && !v.SassList? && !v.SassMap? ==> ListsIn(v) == []
  {}

  // ---- The protofier ----

  class Protofier {
    const functions: OpaqueRegistry
    const mixins: OpaqueRegistry
    var argumentLists: seq<SassValue>
    /** The argument lists whose keywords the host has looked at. */
    var accessed: set<SassValue>

    constructor (functions: OpaqueRegistry, mixins: OpaqueRegistry)
      requires functions != mixins && functions.Valid() && mixins.Valid()
      ensures this.functions == functions && this.mixins == mixins && argumentLists == [] && accessed == {}
      ensures Valid()
    {
      this.functions, this.mixins, argumentLists, accessed := functions, mixins, [], {};
    }

    predicate Valid()
      reads this, functions, mixins
    {
      functions != mixins && functions.Valid() && mixins.Valid()
    }

    function Ids(): Tables
      reads this, functions, mixins
    {
      Tables(argumentLists, functions.elements, mixins.elements)
    }

    /**
     Encodes a value. Argument lists, functions and mixins get IDs that keep their
     meaning; the argument lists in the value take the next ones, each before those
     inside it.
     */
    method Protofy(v: SassValue) returns (p: Proto)
      requires Valid()
      modifies this`argumentLists, functions, mixins
      decreases v, 2
      ensures Valid() && old(Ids()).Before(Ids())
      ensures Ids().Fits() ==> Encodes(v, p, Ids())
      ensures v.SassArgumentList? ==> p.PArgumentList? && p.id == (|old(argumentLists)| + 1) % UINT32
      ensures argumentLists == old(argumentLists) + ListsIn(v)
    {
      hide EncodesAll, EncodesEntries, ListsIn;
      ListsOutside(v);
      assert argumentLists + [] == argumentLists;
      match v
      case SassString(text, quoted) =>
        p := PString(text, quoted);
      case SassNumber(value, numerators, denominators) =>
        p := PNumber(value, numerators, denominators);
      case SassColor(color) =>
        p := PColor(color);
      case SassArgumentList(_, _, _, _) =>
        p := ProtofyArgumentList(v);
      case SassList(contents, separator, brackets) =>
        var ps := ProtofyValues(contents);
        p := PList(ps, WireOf(separator), brackets);
        PlainListEncodes(v, ps, Ids());
      case SassMap(entries) =>
        var pairs := ProtofyEntries(v);
        p := PMap(pairs);
        MapEncodes(v, pairs, Ids());
      case SassFunction(identity) =>
        var id := functions.GetId(identity);
        p := PCompilerFunction(id % UINT32);
      case SassMixin(identity) =>
        var id := mixins.GetId(identity);
        p := PCompilerMixin(id % UINT32);
      case SassBoolean(isTrue) =>
        p := PSingleton(if isTrue then True else False);
      case SassNull =>
        p := PSingleton(Null);
    }

    method ProtofyArgumentList(list: SassValue) returns (p: Proto)
      requires Valid() && list.SassArgumentList?
      modifies this`argumentLists, functions, mixins
      decreases list, 1
      ensures Valid() && old(Ids()).Before(Ids())
      ensures Ids().Fits() ==> Encodes(list, p, Ids())
      ensures p.PArgumentList? && p.id == (|old(argumentLists)| + 1) % UINT32
      ensures argumentLists == old(argumentLists) + ListsIn(list)
    {
      hide Encodes, EncodesAll, OpaqueRegistry.Valid, ListsInAll, ListsInKeywords;
      argumentLists := argumentLists + [list];
      var id := |argumentLists| % UINT32;
      ghost var retained := Ids();
      var ps := ProtofyValues(list.contents);
      ghost var between := Ids();
      var pairs := ProtofyKeywords(list);
      p := PArgumentList(id, ps, WireOf(list.separator), pairs);
      SeparatorsOnWire(list.separator, p.wireSeparator);
      if Ids().Fits() {
        EncodesAllLater(list.contents, ps, between, Ids());
        ListEncodes(list, p, |retained.lists|, Ids());
      }
    }

    method ProtofyValues(vs: seq<SassValue>) returns (ps: seq<Proto>)
      requires Valid()
      modifies this`argumentLists, functions, mixins
      decreases vs, 0
      ensures Valid() && old(Ids()).Before(Ids())
      ensures |ps| == |vs| && (Ids().Fits() ==> EncodesAll(vs, ps, Ids()))
      ensures argumentLists == old(argumentLists) + ListsInAll(vs, |vs|)
    {
      hide ListsIn;
      ps := [];
      for i := 0 to |vs|
        invariant argumentLists == old(argumentLists) + ListsInAll(vs, i)
        invariant Valid() && old(Ids()).Before(Ids())
        invariant |ps| == i && (Ids().Fits() ==> EncodesAll(vs[..i], ps, Ids()))
      {
        ghost var before := Ids();
        var p := Protofy(vs[i]);
        if Ids().Fits() {
          EncodesAllLater(vs[..i], ps, before, Ids());
        }
        ps := ps + [p];
      }
      assert vs[..|vs|] == vs;
    }

    method ProtofyKeywords(list: SassValue) returns (pairs: seq<(string, Proto)>)
      requires Valid() && list.SassArgumentList?
      modifies this`argumentLists, functions, mixins
      decreases list, 0
      ensures Valid() && old(Ids()).Before(Ids())
      ensures |pairs| == |list.keywords| && forall i | 0 <= i < |pairs| :: pairs[i].0 == list.keywords[i].0
      ensures Ids().Fits() ==> EncodesAll(Values(list.keywords), ProtosOf(pairs), Ids())
      ensures argumentLists == old(argumentLists) + ListsInKeywords(list, |list.keywords|)
    {
      hide ListsIn, EncodesAll, Encodes, OpaqueRegistry.Valid, Values, ProtosOf;
      NoneEncoded(Ids());
      pairs := [];
      var keywords := list.keywords;
      AsManyValues(keywords);
      for i := 0 to |keywords|
        invariant argumentLists == old(argumentLists) + ListsInKeywords(list, i)
        invariant Valid() && old(Ids()).Before(Ids())
        invariant |pairs| == i && forall j | 0 <= j < i :: pairs[j].0 == keywords[j].0
        invariant |Values(keywords)| == |keywords|
        invariant Ids().Fits() ==> EncodesAll(Values(keywords)[..i], ProtosOf(pairs), Ids())
      {
        ghost var before := Ids();
        var p := Protofy(keywords[i].1);
        if Ids().Fits() {
          EncodesAllLater(Values(keywords)[..i], ProtosOf(pairs), before, Ids());
          OneMoreEncoded(Values(keywords)[..i], ProtosOf(pairs), keywords[i].1, p, Ids());
        }
        OneMoreKeyword(keywords, i, pairs, p);
        pairs := pairs + [(keywords[i].0, p)];
      }
      assert Values(keywords)[..|keywords|] == Values(keywords);
    }

    method ProtofyEntries(sassMap: SassValue) returns (pairs: seq<(Proto, Proto)>)
      requires Valid() && sassMap.SassMap?
      modifies this`argumentLists, functions, mixins
      decreases sassMap, 0
      ensures Valid() && old(Ids()).Before(Ids())
      ensures |pairs| == |sassMap.entries| && (Ids().Fits() ==> EncodesEntries(sassMap.entries, pairs, Ids()))
      ensures argumentLists == old(argumentLists) + ListsInEntries(sassMap, |sassMap.entries|)
    {
      hide ListsIn, EncodesEntries, Encodes, OpaqueRegistry.Valid;
      NoneEncoded(Ids());
      pairs := [];
      var entries := sassMap.entries;
      for i := 0 to |entries|
        invariant argumentLists == old(argumentLists) + ListsInEntries(sassMap, i)
        invariant Valid() && old(Ids()).Before(Ids())
        invariant |pairs| == i && (Ids().Fits() ==> EncodesEntries(entries[..i], pairs, Ids()))
      {
        ghost var before := Ids();
        var k := Protofy(entries[i].0);
        ghost var between := Ids();
        var v := Protofy(entries[i].1);
        if Ids().Fits() {
          EncodesEntriesLater(entries[..i], pairs, before, Ids());
          EncodesLater(entries[i].0, k, between, Ids());
          OneMoreEntry(entries[..i], pairs, entries[i], (k, v), Ids());
        }
        assert entries[..i + 1] == entries[..i] + [entries[i]];
        pairs := pairs + [(k, v)];
      }
      assert entries[..|entries|] == entries;
    }

    /** The retained list an ID names; zero and unknown IDs are errors. */
    method ArgumentListForId(id: nat) returns (list: Option<SassValue>)
      ensures list == if 1 <= id <= |argumentLists| then Some(argumentLists[id - 1]) else None
    {
      if id < 1 {
        return None;
      }
      if id > |argumentLists| {
        return None;
      }
      return Some(argumentLists[id - 1]);
    }

    /**
     Marks the lists the host says it looked at, then decodes the answer. An
     unknown list is an error; the ones named before it stay marked.
     */
    method DeprotofyResponse(lib: Library, accessedLists: seq<nat>, p: Proto) returns (result: Result)
      requires Valid()
      modifies this`accessed
      ensures result.Ok? <==> AllKnown(accessedLists, argumentLists) && Decodable(lib, p, Ids())
      ensures result.Ok? ==> Decoded(lib, p, result.value, Ids())
      ensures AllKnown(accessedLists, argumentLists) ==>
                accessed == old(accessed) + Named(accessedLists, argumentLists)
      ensures (exists id <- accessedLists :: id == 0 || id > |argumentLists|) ==> result.Invalid?
      ensures result.Ok? ==>
                forall list :: list in accessed <==> list in old(accessed) || IsNamed(accessedLists, argumentLists, list)
    {
      for i := 0 to |accessedLists|
        invariant AllKnown(accessedLists[..i], argumentLists)
        invariant accessed == old(accessed) + Named(accessedLists[..i], argumentLists)
      {
        assert accessedLists[i] in accessedLists && accessedLists[..i + 1] == accessedLists[..i] + [accessedLists[i]];
        var list := ArgumentListForId(accessedLists[i]);
        if list.None? {
          return Invalid;
        }
        accessed := accessed + {list.value};
        NamedMore(accessedLists[..i], accessedLists[i], argumentLists);
      }
      assert accessedLists[..|accessedLists|] == accessedLists;
      NamedMeans(accessedLists, argumentLists);
      result := Deprotofy(lib, p);
    }

    /** Decodes what the host sent, or reports what it cannot mean. */
    method Deprotofy(lib: Library, p: Proto) returns (result: Result)
      requires Valid()
      decreases p, 2
      ensures result.Ok? <==> Decodable(lib, p, Ids())
      ensures result.Ok? ==> Decoded(lib, p, result.value, Ids())
    {
      match p
      case PString(text, quoted) =>
        return Ok(SassString(text, quoted));
      case PNumber(value, numerators, denominators) =>
        return Ok(Simplified(lib, value, numerators, denominators));
      case PColor(color) =>
        var made := lib.newColor(color);
        return if made.Some? then Ok(SassColor(made.value)) else Invalid;
      case PArgumentList(id, _, _, _) =>
        if id != 0 {
          var list := ArgumentListForId(id);
          return if list.Some? then Ok(list.value) else Invalid;
        }
        result := DeprotofyNewList(lib, p);
      case PList(contents, wireSeparator, brackets) =>
        var separator := SeparatorOf(wireSeparator);
        if separator.None? {
          return Invalid;
        }
        if contents == [] {
          return Ok(SassList([], separator.value, brackets));
        }
        if separator.value.Undecided? && |contents| > 1 {
          return Invalid;
        }
        var values := DeprotofyAll(lib, contents);
        return if values.Some? then Ok(SassList(values.value, separator.value, brackets)) else Invalid;
      case PMap(entries) =>
        var decoded := DeprotofyEntries(lib, p);
        if decoded.None? {
          return Invalid;
        }
        var shuffled;
        ghost var order;
        shuffled, order := Shuffle(decoded.value);
        var kept := NewSassMap(lib, shuffled);
        return Ok(SassMap(kept));
      case PCompilerFunction(id) =>
        var element := functions.Get(id);
        return if element.Some? then Ok(SassFunction(element.value)) else Invalid;
      case PCompilerMixin(id) =>
        var element := mixins.Get(id);
        return if element.Some? then Ok(SassMixin(element.value)) else Invalid;
      case PUnset =>
        return Invalid;
      case PSingleton(singleton) =>
        match singleton
        case True => return Ok(SassBoolean(true));
        case False => return Ok(SassBoolean(false));
        case Null => return Ok(SassNull);
        case UnknownSingleton => return Invalid;
    }

    method DeprotofyAll(lib: Library, ps: seq<Proto>) returns (values: Option<seq<SassValue>>)
      requires Valid()
      decreases ps, 0
      ensures values.Some? <==> forall i | 0 <= i < |ps| :: Decodable(lib, ps[i], Ids())
      ensures values.Some? ==> AllDecoded(lib, ps, values.value, Ids())
    {
      var vs := [];
      for i := 0 to |ps|
        invariant |vs| == i
        invariant forall j | 0 <= j < i :: Decodable(lib, ps[j], Ids()) && Decoded(lib, ps[j], vs[j], Ids())
      {
        var result := Deprotofy(lib, ps[i]);
        if result.Invalid? {
          return None;
        }
        vs := vs + [result.value];
      }
      return Some(vs);
    }

    method DeprotofyEntries(lib: Library, p: Proto) returns (values: Option<seq<(SassValue, SassValue)>>)
      requires Valid() && p.PMap?
      decreases p, 0
      ensures values.Some? <==> Decodable(lib, p, Ids())
      ensures values.Some? ==> EntriesDecoded(lib, p.entries, values.value, Ids())
    {
      var vs := [];
      for i := 0 to |p.entries|
        invariant |vs| == i
        invariant forall j | 0 <= j < i :: Decodable(lib, p.entries[j].0, Ids()) && Decodable(lib, p.entries[j].1, Ids())
        invariant EntriesDecoded(lib, p.entries[..i], vs, Ids())
      {
        var key := Deprotofy(lib, p.entries[i].0);
        if key.Invalid? {
          return None;
        }
        var value := Deprotofy(lib, p.entries[i].1);
        if value.Invalid? {
          return None;
        }
        vs := vs + [(key.value, value.value)];
      }
      assert p.entries[..|p.entries|] == p.entries;
      return Some(vs);
    }

    /** An argument list the host made up itself. */
    method DeprotofyNewList(lib: Library, p: Proto) returns (result: Result)
      requires Valid() && p.PArgumentList? && p.id == 0
      decreases p, 1
      ensures result.Ok? <==> Decodable(lib, p, Ids())
      ensures result.Ok? ==> Decoded(lib, p, result.value, Ids())
    {
      var separator := SeparatorOf(p.wireSeparator);
      if separator.None? || (separator.value.Undecided? && |p.contents| > 1) {
        return Invalid;
      }
      var contents := DeprotofyAll(lib, p.contents);
      if contents.None? {
        return Invalid;
      }
      var vs := [];
      for i := 0 to |p.keywords|
        invariant |vs| == i
        invariant forall j | 0 <= j < i ::
                    Decodable(lib, p.keywords[j].1, Ids()) && Decoded(lib, p.keywords[j].1, vs[j], Ids())
      {
        var value := Deprotofy(lib, p.keywords[i].1);
        if value.Invalid? {
          return Invalid;
        }
        vs := vs + [value.value];
      }
      var keywords;
      ghost var order;
      keywords, order := Shuffle(WithKeywords(p.keywords, vs));
      return Ok(SassArgumentList(0, contents.value, keywords, separator.value));
    }
  }

  /** The lists the IDs name. */
  function Named(ids: seq<nat>, lists: seq<SassValue>): set<SassValue> {
    if ids == [] then {}
    else
      var id := ids[|ids| - 1];
      Named(ids[..|ids| - 1], lists) + if 1 <= id <= |lists| then {lists[id - 1]} else {}
  }

  /** One of the IDs, counted from one, names the list. */
  predicate IsNamed(ids: seq<nat>, lists: seq<SassValue>, list: SassValue) {
    exists i | 0 <= i < |ids| :: 1 <= ids[i] <= |lists| && lists[ids[i] - 1] == list
  }

  lemma {:induction false} NamedMeans(ids: seq<nat>, lists: seq<SassValue>)
    ensures forall list :: list in Named(ids, lists) <==> IsNamed(ids, lists, list)
  {
    if ids != [] {
      var n := |ids| - 1;
      NamedMeans(ids[..n], lists);
      forall list ensures IsNamed(ids, lists, list) <==>
                            IsNamed(ids[..n], lists, list) || (1 <= ids[n] <= |lists| && lists[ids[n] - 1] == list)
      {
        if IsNamed(ids[..n], lists, list) {
          var i :| 0 <= i < n && 1 <= ids[..n][i] <= |lists| && lists[ids[..n][i] - 1] == list;
          assert ids[i] == ids[..n][i];
        }
        if i :| 0 <= i < n && 1 <= ids[i] <= |lists| && lists[ids[i] - 1] == list {
          assert ids[..n][i] == ids[i];
        }
      }
    }
  }

  lemma NamedMore(ids: seq<nat>, id: nat, lists: seq<SassValue>)
    requires 1 <= id <= |lists|
    ensures Named(ids + [id], lists) == Named(ids, lists) + {lists[id - 1]}
  {
    assert (ids + [id])[..|ids|] == ids;
  }

  // ---- Go maps ----

  /** Visits every element once, in an order nobody controls. */
  method Shuffle<T>(s: seq<T>) returns (shuffled: seq<T>, ghost order: seq<nat>)
    ensures IsPermutation(order, |s|) && shuffled == Reordered(s, order)
  {
    shuffled, order := [], [];
    var pending: set<nat> := Below(|s|);
    while pending != {}
      invariant |order| + |pending| == |s|
      invariant forall i | 0 <= i < |order| :: order[i] < |s| && order[i] !in pending
      invariant forall i <- pending :: i < |s|
      invariant forall i, j | 0 <= i < j < |order| :: order[i] != order[j]
      invariant shuffled == Reordered(s, order)
      decreases |pending|
    {
      var i: nat :| i in pending;
      pending := pending - {i};
      shuffled, order := shuffled + [s[i]], order + [i];
    }
  }

  /** Keeps the first entry of every key. */
  method NewSassMap(lib: Library, entries: seq<(SassValue, SassValue)>) returns (kept: seq<(SassValue, SassValue)>)
    ensures kept == KeepFirst(lib, entries)
  {
    kept := [];
    for i := 0 to |entries|
      invariant kept == KeepFirst(lib, entries[..i])
    {
      assert entries[..i + 1][..i] == entries[..i];
      if HasKey(lib, kept, entries[i].0) {
        continue;
      }
      kept := kept + [entries[i]];
    }
    assert entries[..|entries|] == entries;
  }

  ghost predicate EntriesDecoded(lib: Library, ps: seq<(Proto, Proto)>, vs: seq<(SassValue, SassValue)>, t: Tables) {
    |ps| == |vs| &&
    forall i | 0 <= i < |ps| :: Decoded(lib, ps[i].0, vs[i].0, t) && Decoded(lib, ps[i].1, vs[i].1, t)
  }

  predicate AllKnown(ids: seq<nat>, lists: seq<SassValue>) { forall id <- ids :: 1 <= id <= |lists| }

  // ---- The round trip through the host ----

  /**
   A value encoded in any state, and decoded after any number of other values have
   been encoded, comes back the same up to map order; an argument list, a function
   or a mixin comes back as the very same object.
   */
  method RoundTrip(lib: Library, protofier: Protofier, v: SassValue, others: seq<SassValue>) returns (result: Result)
    requires protofier.Valid() && OrderBlind(lib) && WellFormed(lib, v)
    modifies protofier, protofier.functions, protofier.mixins
    ensures protofier.Valid() && old(protofier.Ids()).Before(protofier.Ids())
    ensures protofier.Ids().Fits() ==> result.Ok? && Same(v, result.value)
  {
    hide Encodes, Decoded, Decodable, Same, OrderBlind, WellFormed, OpaqueRegistry.Valid;
    var p := protofier.Protofy(v);
    ghost var issued := protofier.Ids();
    for i := 0 to |others|
      invariant protofier.Valid() && issued.Before(protofier.Ids())
    {
      var q := protofier.Protofy(others[i]);
    }
    result := protofier.Deprotofy(lib, p);
    if protofier.Ids().Fits() {
      EncodesLater(v, p, issued, protofier.Ids());
      EncodedIsDecodable(lib, v, p, protofier.Ids());
      DecodesToSame(lib, v, p, result.value, protofier.Ids());
    }
  }

  function Values(keywords: seq<(string, SassValue)>): seq<SassValue> {
    seq(|keywords|, i requires 0 <= i < |keywords| => keywords[i].1)
  }

  function ProtosOf(pairs: seq<(string, Proto)>): seq<Proto> {
    seq(|pairs|, i requires 0 <= i < |pairs| => pairs[i].1)
  }

  ghost predicate EncodesAll(vs: seq<SassValue>, ps: seq<Proto>, t: Tables) {
    |vs| == |ps| && forall i | 0 <= i < |vs| :: Encodes(vs[i], ps[i], t)
  }

  lemma ListEncodes(list: SassValue, p: Proto, id: nat, t: Tables)
    requires list.SassArgumentList? && 1 <= id <= |t.lists| && t.lists[id - 1] == list
    requires p.PArgumentList? && p.id == id && OnWire(list.separator, p.wireSeparator)
    requires EncodesAll(list.contents, p.contents, t) && EncodesAll(Values(list.keywords), ProtosOf(p.keywords), t)
    requires forall i | 0 <= i < |p.keywords| && i < |list.keywords| :: p.keywords[i].0 == list.keywords[i].0
    ensures Encodes(list, p, t)
  {
    forall i | 0 <= i < |list.keywords| ensures Encodes(list.keywords[i].1, p.keywords[i].1, t) {
      assert Values(list.keywords)[i] == list.keywords[i].1 && ProtosOf(p.keywords)[i] == p.keywords[i].1;
    }
  }

  lemma PlainListEncodes(v: SassValue, ps: seq<Proto>, t: Tables)
    requires v.SassList?
    ensures EncodesAll(v.contents, ps, t) ==> Encodes(v, PList(ps, WireOf(v.separator), v.brackets), t)
  {
    SeparatorsOnWire(v.separator, WireOf(v.separator));
  }

  lemma MapEncodes(v: SassValue, pairs: seq<(Proto, Proto)>, t: Tables)
    requires v.SassMap?
    ensures EncodesEntries(v.entries, pairs, t) ==> Encodes(v, PMap(pairs), t)
  {}

  ghost predicate EncodesEntries(entries: seq<(SassValue, SassValue)>, pairs: seq<(Proto, Proto)>, t: Tables) {
    |entries| == |pairs| &&
    forall i | 0 <= i < |entries| :: Encodes(entries[i].0, pairs[i].0, t) && Encodes(entries[i].1, pairs[i].1, t)
  }

  lemma AsManyValues(keywords: seq<(string, SassValue)>)
    ensures |Values(keywords)| == |keywords| && Values(keywords)[..0] == []
  {}

  lemma OneMoreKeyword(keywords: seq<(string, SassValue)>, i: nat, pairs: seq<(string, Proto)>, p: Proto)
    requires i < |keywords|
    ensures |Values(keywords)| == |keywords| && Values(keywords)[..i + 1] == Values(keywords)[..i] + [keywords[i].1]
    ensures ProtosOf(pairs + [(keywords[i].0, p)]) == ProtosOf(pairs) + [p]
  {}

  lemma NoneEncoded(t: Tables)
    ensures EncodesAll([], [], t) && EncodesEntries([], [], t) && Values([]) == [] && ProtosOf([]) == []
  {}

  lemma OneMoreEncoded(vs: seq<SassValue>, ps: seq<Proto>, v: SassValue, p: Proto, t: Tables)
    requires EncodesAll(vs, ps, t) && Encodes(v, p, t)
    ensures EncodesAll(vs + [v], ps + [p], t)
  {
    hide Encodes;
  }

  lemma OneMoreEntry(entries: seq<(SassValue, SassValue)>, pairs: seq<(Proto, Proto)>, entry: (SassValue, SassValue),
                     pair: (Proto, Proto), t: Tables)
    requires EncodesEntries(entries, pairs, t) && Encodes(entry.0, pair.0, t) && Encodes(entry.1, pair.1, t)
    ensures EncodesEntries(entries + [entry], pairs + [pair], t)
  {
    hide Encodes;
  }

  lemma EncodesAllLater(vs: seq<SassValue>, ps: seq<Proto>, t: Tables, later: Tables)
    requires t.Before(later)
    ensures EncodesAll(vs, ps, t) ==> EncodesAll(vs, ps, later)
    ensures later.Fits() ==> t.Fits()
  {
    if EncodesAll(vs, ps, t) {
      forall i | 0 <= i < |vs| ensures Encodes(vs[i], ps[i], later) {
        EncodesLater(vs[i], ps[i], t, later);
      }
    }
  }

  lemma EncodesEntriesLater(entries: seq<(SassValue, SassValue)>, pairs: seq<(Proto, Proto)>, t: Tables, later: Tables)
    requires t.Before(later)
    ensures EncodesEntries(entries, pairs, t) ==> EncodesEntries(entries, pairs, later)
    ensures later.Fits() ==> t.Fits()
  {
    if EncodesEntries(entries, pairs, t) {
      forall i | 0 <= i < |entries|
        ensures Encodes(entries[i].0, pairs[i].0, later) && Encodes(entries[i].1, pairs[i].1, later)
      {
        EncodesLater(entries[i].0, pairs[i].0, t, later);
        EncodesLater(entries[i].1, pairs[i].1, t, later);
      }
    }
  }
}
