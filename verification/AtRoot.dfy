/** Where the body of `@at-root` goes: the parent chain without the excluded ancestors. */
module AtRoot {
  /** A CSS parent node; the rule is everything but its place in the tree. */
  class CssNode {
    const rule: string
    const isStylesheet: bool
    var parent: CssNode?
    var children: seq<CssNode>

    constructor (rule: string, isStylesheet: bool)
      ensures this.rule == rule && this.isStylesheet == isStylesheet && parent == null && children == []
    {
      this.rule, this.isStylesheet, parent, children := rule, isStylesheet, null, [];
    }

    method CopyWithoutChildren() returns (copy: CssNode)
      ensures fresh(copy) && copy.rule == rule && copy.isStylesheet == isStylesheet
      ensures copy.parent == null && copy.children == []
    {
      copy := new CssNode(rule, isStylesheet);
    }

    method AddChild(child: CssNode)
      modifies this`children, child`parent
      ensures child.parent == this && children == old(children) + [child]
    {
      child.parent := this;
      children := children + [child];
    }
  }

  /** `chain` leads from `node` up to, but not including, the stylesheet `root`. */
  predicate IsChain(chain: seq<CssNode>, node: CssNode, root: CssNode)
    reads chain`parent
  {
    && root.isStylesheet && node == At(chain, root, 0)
    && forall i | 0 <= i < |chain| :: !chain[i].isStylesheet && chain[i].parent == At(chain, root, i + 1)
  }

  /** The node at a height of the chain; past the chain it is the root. */
  function At(chain: seq<CssNode>, root: CssNode, i: nat): CssNode { if i < |chain| then chain[i] else root }

  /** Following parents never comes back. */
  lemma {:induction false} ChainIsDistinct(chain: seq<CssNode>, node: CssNode, root: CssNode, i: nat, j: nat)
    requires IsChain(chain, node, root) && i < j < |chain|
    ensures chain[i] != chain[j]
    decreases |chain| - j
  {
    assert chain[i].parent == chain[i + 1] && !chain[i + 1].isStylesheet && root.isStylesheet;
    assert chain[j].parent == At(chain, root, j + 1);
    if j + 1 < |chain| {
      ChainIsDistinct(chain, node, root, i + 1, j + 1);
    }
  }

  type Query = string -> bool

  function Rules(chain: seq<CssNode>): seq<string> {
    seq(|chain|, i requires 0 <= i < |chain| => chain[i].rule)
  }

  /** The nodes the query does not exclude, in order. */
  function Kept(chain: seq<CssNode>, excludes: Query): seq<CssNode> {
    if chain == [] then []
    else
      var last := chain[|chain| - 1];
      Kept(chain[..|chain| - 1], excludes) + if excludes(last.rule) then [] else [last]
  }

  /** Where the first kept nodes of the chain stand in it: increasing, and up to date with `upTo`. */
  predicate Positions(chain: seq<CssNode>, kept: seq<CssNode>, pos: seq<nat>, upTo: nat) {
    && |pos| == |kept| && upTo <= |chain|
    && (forall i | 0 <= i < |pos| :: pos[i] < upTo && kept[i] == chain[pos[i]])
    && (forall i, j | 0 <= i < j < |pos| :: pos[i] < pos[j])
  }

  lemma KeptMore(chain: seq<CssNode>, excludes: Query, included: seq<CssNode>, pos: seq<nat>, k: nat)
    requires k < |chain| && included == Kept(chain[..k], excludes) && Positions(chain, included, pos, k)
    ensures if excludes(chain[k].rule) then Kept(chain[..k + 1], excludes) == included
            else Kept(chain[..k + 1], excludes) == included + [chain[k]]
    ensures Positions(chain, included, pos, k + 1) && Positions(chain, included + [chain[k]], pos + [k], k + 1)
  {
    assert chain[..k + 1][..k] == chain[..k];
  }

  /** Walks from the parent to the stylesheet and keeps what the query does not exclude. */
  method Included(parent: CssNode, excludes: Query, ghost chain: seq<CssNode>, ghost root: CssNode)
    returns (included: seq<CssNode>, ghost pos: seq<nat>)
    requires IsChain(chain, parent, root)
    ensures included == Kept(chain, excludes) && Positions(chain, included, pos, |chain|)
  {
    var cur := parent;
    included, pos := [], [];
    ghost var k: nat := 0;
    while !cur.isStylesheet
      invariant k <= |chain| && cur == At(chain, root, k)
      invariant included == Kept(chain[..k], excludes) && Positions(chain, included, pos, k)
      decreases |chain| - k
    {
      hide Kept, Positions;
      KeptMore(chain, excludes, included, pos, k);
      if !excludes(cur.rule) {
        included, pos := included + [cur], pos + [k];
      }
      cur := cur.parent;
      k := k + 1;
    }
    assert chain[..k] == chain;
  }

  /** Walks up to `target`, which stands at `height`; says whether it had to move. */
  method WalkTo(start: CssNode, target: CssNode, ghost chain: seq<CssNode>, ghost parent: CssNode, ghost root: CssNode,
                ghost from: nat, ghost height: nat) returns (moved: bool)
    requires IsChain(chain, parent, root) && from <= height < |chain|
    requires start == chain[from] && target == chain[height]
    ensures moved == (from < height) && target.parent == At(chain, root, height + 1)
  {
    var cur := start;
    moved := false;
    ghost var k := from;
    while cur != target
      invariant from <= k <= height && cur == chain[k] && moved == (from < k)
      decreases height - k
    {
      moved := true;
      cur := cur.parent;
      k := k + 1;
    }
    if k < height {
      ChainIsDistinct(chain, parent, root, k, height);
    }
  }

  lemma ChainEnds(chain: seq<CssNode>, node: CssNode, root: CssNode)
    requires IsChain(chain, node, root)
    ensures node == At(chain, root, 0) && forall i | 0 <= i < |chain| :: chain[i] != root
  {}

  /** Nodes at consecutive heights are a piece of the chain. */
  lemma ConsecutiveIsPiece(chain: seq<CssNode>, nodes: seq<CssNode>, pos: seq<nat>, m: nat)
    requires Positions(chain, nodes, pos, |chain|) && m <= |nodes| && |nodes| - m <= |chain|
    requires forall j | m <= j < |nodes| :: pos[j] == |chain| - |nodes| + j
    ensures nodes == nodes[..m] + chain[|chain| - (|nodes| - m)..]
  {
    assert nodes[m..] == chain[|chain| - (|nodes| - m)..];
    assert nodes == nodes[..m] + nodes[m..];
  }

  /** A node with others between it and a height is not the one just below that height. */
  lemma NotTheOneBelow(chain: seq<CssNode>, parent: CssNode, root: CssNode, nodes: seq<CssNode>, pos: seq<nat>, i: nat,
                       height: nat)
    requires IsChain(chain, parent, root) && Positions(chain, nodes, pos, |chain|)
    requires i < |nodes| && pos[i] + 1 < height <= |chain|
    ensures nodes[i] != chain[height - 1]
  {
    ChainIsDistinct(chain, parent, root, pos[i], height - 1);
  }

  /** From `m` on, the first `i` heights follow each other, and not so before. */
  predicate EndsTogether(pos: seq<nat>, i: nat, m: nat) {
    && m < i <= |pos| && (forall j | m <= j < i :: pos[j] == pos[m] + (j - m))
    && (m > 0 ==> pos[m - 1] + 1 < pos[m])
  }

  lemma NextPosition(chain: seq<CssNode>, nodes: seq<CssNode>, pos: seq<nat>, i: nat)
    requires Positions(chain, nodes, pos, |chain|) && i < |nodes|
    ensures |pos| == |nodes| && pos[i] < |chain| && nodes[i] == chain[pos[i]]
    ensures i > 0 ==> pos[i - 1] + 1 <= pos[i]
  {}

  lemma OneMoreTogether(pos: seq<nat>, i: nat, m: nat)
    requires i < |pos| && (i > 0 ==> EndsTogether(pos, i, m) && pos[i - 1] + 1 <= pos[i])
    ensures EndsTogether(pos, i + 1, if i > 0 && pos[i] == pos[i - 1] + 1 then m else i)
  {}

  /** When the last heights reach the top, their nodes are what the chain ends with. */
  lemma TogetherIsPiece(chain: seq<CssNode>, parent: CssNode, root: CssNode, nodes: seq<CssNode>, pos: seq<nat>, m: nat)
    requires IsChain(chain, parent, root) && Positions(chain, nodes, pos, |chain|) && EndsTogether(pos, |pos|, m)
    requires pos[|pos| - 1] + 1 == |chain|
    ensures pos[m] < |chain| && nodes[m] == chain[pos[m]] && nodes == nodes[..m] + chain[pos[m]..]
    ensures m > 0 ==> nodes[m - 1] != chain[pos[m] - 1]
  {
    hide IsChain;
    assert pos[|pos| - 1] == pos[m] + (|pos| - 1 - m);
    ConsecutiveIsPiece(chain, nodes, pos, m);
    if m > 0 {
      NotTheOneBelow(chain, parent, root, nodes, pos, m - 1, pos[m]);
    }
  }

  /** Finds where the last nodes start that directly follow each other, and what is above them. */
  method LastContiguous(nodes: seq<CssNode>, parent: CssNode, root: CssNode, ghost chain: seq<CssNode>, ghost pos: seq<nat>)
    returns (innermostContiguous: nat, cur: CssNode)
    requires IsChain(chain, parent, root) && Positions(chain, nodes, pos, |chain|) && nodes != []
    ensures EndsTogether(pos, |nodes|, innermostContiguous) && |pos| == |nodes|
    ensures pos[|pos| - 1] < |chain| && cur == At(chain, root, pos[|pos| - 1] + 1)
  {
    hide IsChain, Positions, EndsTogether;
    ChainEnds(chain, parent, root);
    NextPosition(chain, nodes, pos, 0);
    cur := parent;
    innermostContiguous := 0;
    var hasContiguous := false;
    ghost var k: nat := 0;
    for i := 0 to |nodes|
      invariant k <= |chain| && cur == At(chain, root, k) && |pos| == |nodes|
      invariant k == if i == 0 then 0 else pos[i - 1] + 1
      invariant 0 <= innermostContiguous <= i && hasContiguous == (i > 0)
      invariant i > 0 ==> EndsTogether(pos, i, innermostContiguous)
    {
      NextPosition(chain, nodes, pos, i);
      var moved := WalkTo(cur, nodes[i], chain, parent, root, k, pos[i]);
      OneMoreTogether(pos, i, innermostContiguous);
      hasContiguous := hasContiguous && !moved;
      if !hasContiguous {
        innermostContiguous := i;
        hasContiguous := true;
      }
      cur := nodes[i].parent;
      k := pos[i] + 1;
    }
  }

  lemma NothingSplitOff(chain: seq<CssNode>, nodes: seq<CssNode>)
    ensures nodes == nodes + chain[|chain|..]
  {}

  /**
   Splits off the nodes at the end that already hang together and hang off the
   root: they need no copy, and the innermost of them is where copies attach. No
   node that could have been split off too is left.
   */
  method TrimIncluded(nodes: seq<CssNode>, parent: CssNode, root: CssNode, ghost chain: seq<CssNode>, ghost pos: seq<nat>)
    returns (base: CssNode, rest: seq<CssNode>, ghost from: nat)
    requires IsChain(chain, parent, root) && Positions(chain, nodes, pos, |chain|)
    ensures rest <= nodes && base == if |rest| < |nodes| then nodes[|rest|] else root
    ensures from <= |chain| && base == At(chain, root, from)
    ensures nodes == rest + chain[from..]
    ensures rest != [] && from > 0 ==> rest[|rest| - 1] != chain[from - 1]
  {
    hide IsChain, Positions;
    NothingSplitOff(chain, nodes);
    if nodes == [] {
      return root, nodes, |chain|;
    }
    var innermostContiguous, cur := LastContiguous(nodes, parent, root, chain, pos);
    if cur != root {
      NotTheOneBelow(chain, parent, root, nodes, pos, |nodes| - 1, |chain|);
      return root, nodes, |chain|;
    }
    ChainEnds(chain, parent, root);
    TogetherIsPiece(chain, parent, root, nodes, pos, innermostContiguous);
    return nodes[innermostContiguous], nodes[..innermostContiguous], pos[innermostContiguous];
  }

  // ---- The copies ----

  /** Each copy is the only child of the next, the innermost has none. */
  predicate HangTogether(copies: seq<CssNode>)
    reads copies
  {
    forall k | 0 <= k < |copies| :: copies[k].children == InnerOf(copies, k)
  }

  /** The copy around which copy `k` stands. */
  function InnerOf(copies: seq<CssNode>, k: nat): seq<CssNode>
    requires k < |copies|
  {
    if k == 0 then [] else [copies[k - 1]]
  }

  lemma InnerOfMore(copies: seq<CssNode>, copy: CssNode)
    requires copies != []
    ensures forall k | 0 <= k < |copies| :: InnerOf(copies + [copy], k) == InnerOf(copies, k)
    ensures InnerOf(copies + [copy], |copies|) == [copies[|copies| - 1]]
  {}

  /** The nodes copied so far: each new, the outermost still without a place. */
  ghost predicate Nested(copies: seq<CssNode>, included: seq<CssNode>)
    reads copies
  {
    && 0 < |copies| <= |included|
    && (forall k | 0 <= k < |copies| :: copies[k].rule == included[k].rule && !copies[k].isStylesheet)
    && (forall k | 0 <= k < |copies| - 1 :: copies[k].parent == copies[k + 1] && copies[k] != copies[|copies| - 1])
  }

  lemma FirstCopy(copy: CssNode, included: seq<CssNode>)
    requires included != [] && copy.rule == included[0].rule && !copy.isStylesheet && copy.children == []
    ensures Nested([copy], included) && HangTogether([copy])
  {}

  /** Copies one more node, around the copies made so far. */
  method CopyAround(node: CssNode, outerCopy: CssNode, ghost copies: seq<CssNode>, ghost included: seq<CssNode>)
    returns (copy: CssNode)
    requires 0 < |copies| < |included| && outerCopy == copies[|copies| - 1] && node == included[|copies|]
    requires Nested(copies, included) && HangTogether(copies) && !node.isStylesheet
    modifies outerCopy`parent
    ensures fresh(copy) && Nested(copies + [copy], included) && HangTogether(copies + [copy])
  {
    hide InnerOf;
    copy := node.CopyWithoutChildren();
    copy.AddChild(outerCopy);
    InnerOfMore(copies, copy);
    assert forall c <- copies :: c != copy && c.children == old(c.children);
  }

  /** Hangs up the outermost copy. */
  method HangUp(base: CssNode, outerCopy: CssNode, ghost copies: seq<CssNode>, ghost included: seq<CssNode>)
    requires 0 < |copies| && outerCopy == copies[|copies| - 1] && base !in copies
    requires Nested(copies, included) && HangTogether(copies)
    modifies outerCopy`parent, base`children
    ensures Nested(copies, included) && HangTogether(copies)
    ensures outerCopy.parent == base && base.children == old(base.children) + [outerCopy]
  {
    hide InnerOf;
    base.AddChild(outerCopy);
  }

  /** Copies the nodes that need it, each inside the next, the last inside `base`. */
  method CopyInto(base: CssNode, included: seq<CssNode>, root: CssNode, ghost above: seq<CssNode>)
    returns (innerCopy: CssNode, ghost copies: seq<CssNode>)
    requires IsChain(above, base, root) && forall n <- included :: !n.isStylesheet
    modifies base`children
    ensures IsChain(copies + above, innerCopy, root) && Rules(copies) == Rules(included)
    ensures (forall c <- copies :: fresh(c)) && HangTogether(copies) && |copies| == |included|
    ensures included == [] ==> base.children == old(base.children)
    ensures included != [] ==> base.children == old(base.children) + [copies[|copies| - 1]]
  {
    hide IsChain, Rules, HangTogether, Nested, InnerOf;
    innerCopy := base;
    copies := [];
    if included == [] {
      NoCopies();
      assert [] + above == above;
      return;
    }
    innerCopy := included[0].CopyWithoutChildren();
    var outerCopy := innerCopy;
    copies := [innerCopy];
    FirstCopy(innerCopy, included);
    for i := 1 to |included|
      invariant |copies| == i && outerCopy == copies[i - 1] && innerCopy == copies[0]
      invariant Nested(copies, included) && HangTogether(copies) && fresh(outerCopy) && forall c <- copies :: fresh(c)
      invariant unchanged(above) && base.children == old(base.children)
    {
      outerCopy := CopyAround(included[i], outerCopy, copies, included);
      copies := copies + [outerCopy];
    }
    HangUp(base, outerCopy, copies, included);
    assert IsChain(above, base, root);
    NestedInChain(copies, included, above, base, root);
  }

  lemma NestedInChain(copies: seq<CssNode>, included: seq<CssNode>, above: seq<CssNode>, base: CssNode, root: CssNode)
    requires Nested(copies, included) && |copies| == |included|
    requires copies[|copies| - 1].parent == base && IsChain(above, base, root)
    ensures IsChain(copies + above, copies[0], root) && Rules(copies) == Rules(included)
  {
    var chain := copies + above;
    forall i | 0 <= i < |chain| ensures !chain[i].isStylesheet && chain[i].parent == At(chain, root, i + 1) {
      if i >= |copies| {
        assert chain[i] == above[i - |copies|] && At(chain, root, i + 1) == At(above, root, i + 1 - |copies|);
      }
    }
  }

  /** The rules are those of the nodes at the given places, and these are all that are not excluded. */
  predicate StayAt(chain: seq<CssNode>, excludes: Query, rules: seq<string>, places: seq<nat>) {
    && |places| == |rules|
    && (forall i | 0 <= i < |places| :: places[i] < |chain| && rules[i] == chain[places[i]].rule)
    && (forall i, j | 0 <= i < j < |places| :: places[i] < places[j])
    && (forall k | 0 <= k < |chain| :: k in places <==> !excludes(chain[k].rule))
  }

  lemma {:induction false} KeptStay(chain: seq<CssNode>, excludes: Query) returns (places: seq<nat>)
    ensures StayAt(chain, excludes, Rules(Kept(chain, excludes)), places)
  {
    if chain == [] {
      places := [];
    } else {
      var n := |chain| - 1;
      var before := KeptStay(chain[..n], excludes);
      places := before + if excludes(chain[n].rule) then [] else [n];
      forall k | 0 <= k < |chain| ensures k in places <==> !excludes(chain[k].rule) {
        if k < n {
          assert chain[..n][k] == chain[k] && (k in places <==> k in before);
        } else {
          assert n !in before;
        }
      }
    }
  }

  lemma SameFront<T>(a: seq<T>, b: seq<T>, c: seq<T>, d: seq<T>)
    requires a + b == c + d && |b| == |d|
    ensures a == c && b == d
  {
    assert a == (a + b)[..|a|] && c == (c + d)[..|c|];
    assert b == (a + b)[|a|..] && d == (c + d)[|c|..];
  }

  lemma TopStays(chain: seq<CssNode>, excludes: Query, rest: seq<CssNode>, from: nat)
    requires from <= |chain| && Kept(chain, excludes) == rest + chain[from..]
    ensures forall i | from <= i < |chain| :: !excludes(chain[i].rule)
  {
    hide Kept;
    KeptMembers(chain, excludes);
    forall i | from <= i < |chain| ensures !excludes(chain[i].rule) {
      assert (rest + chain[from..])[|rest| + i - from] == chain[i];
      assert chain[i] in Kept(chain, excludes);
    }
  }

  /** What is split off is all that hangs together at the top: the node below it is excluded. */
  lemma SplitAtExcluded(chain: seq<CssNode>, excludes: Query, rest: seq<CssNode>, from: nat)
    requires from <= |chain| && Kept(chain, excludes) == rest + chain[from..]
    requires rest != [] && from > 0 ==> rest[|rest| - 1] != chain[from - 1]
    ensures from > 0 ==> excludes(chain[from - 1].rule)
    ensures forall i | from <= i < |chain| :: !excludes(chain[i].rule)
  {
    hide Kept;
    TopStays(chain, excludes, rest, from);
    KeptSplit(chain, excludes, from);
    KeptAll(chain[from..], excludes);
    SameFront(Kept(chain[..from], excludes), Kept(chain[from..], excludes), rest, chain[from..]);
    if from > 0 {
      LastIsKept(chain, excludes, from);
    }
  }

  lemma LastIsKept(chain: seq<CssNode>, excludes: Query, k: nat)
    requires 0 < k <= |chain|
    ensures !excludes(chain[k - 1].rule) ==>
              var below := Kept(chain[..k], excludes); below != [] && below[|below| - 1] == chain[k - 1]
  {
    assert chain[..k][k - 1] == chain[k - 1];
  }

  lemma {:induction false} KeptSplit(chain: seq<CssNode>, excludes: Query, k: nat)
    requires k <= |chain|
    ensures Kept(chain, excludes) == Kept(chain[..k], excludes) + Kept(chain[k..], excludes)
    decreases |chain|
  {
    if k == |chain| {
      assert chain[..k] == chain && chain[k..] == [];
    } else {
      var n := |chain| - 1;
      KeptSplit(chain[..n], excludes, k);
      assert chain[..n][..k] == chain[..k] && chain[..n][k..] == chain[k..][..n - k];
    }
  }

  /** Only a list without excluded nodes is kept at its full length. */
  lemma {:induction false} KeptAll(chain: seq<CssNode>, excludes: Query)
    ensures |Kept(chain, excludes)| == |chain| <==> forall i | 0 <= i < |chain| :: !excludes(chain[i].rule)
  {
    if chain != [] {
      var n := |chain| - 1;
      KeptMembers(chain[..n], excludes);
      KeptAll(chain[..n], excludes);
      assert forall i | 0 <= i < n :: chain[..n][i] == chain[i];
    }
  }

  /**
   The new chain is the old one without excluded nodes: everything above the last
   excluded one as it was, below that a copy of each node that stays.
   */
  ghost predicate WithoutExcluded(chain: seq<CssNode>, excludes: Query, newChain: seq<CssNode>, copies: seq<CssNode>,
                                  from: nat)
  {
    && from <= |chain| && newChain == copies + chain[from..]
    && (from > 0 ==> excludes(chain[from - 1].rule)) && (forall i | from <= i < |chain| :: !excludes(chain[i].rule))
    && exists places :: StayAt(chain, excludes, Rules(newChain), places)
  }

  /**
   Finds the parent for the body of `@at-root`. Whether nodes are reused or copied,
   the chain from it to the root is the old chain without the excluded nodes, and
   the nodes that stay keep their parents. All nodes above the last excluded one are
   reused, and the others that stay are copied once, as the last child of what is
   above them.
   */
  method ParentForBody(parent: CssNode, root: CssNode, excludes: Query, ghost chain: seq<CssNode>)
    returns (inner: CssNode, ghost newChain: seq<CssNode>, ghost copies: seq<CssNode>, ghost from: nat)
    requires IsChain(chain, parent, root)
    modifies root`children, chain`children
    ensures IsChain(newChain, inner, root) && IsChain(chain, parent, root)
    ensures Rules(newChain) == Rules(Kept(chain, excludes)) && WithoutExcluded(chain, excludes, newChain, copies, from)
    ensures (forall c <- copies :: fresh(c)) && HangTogether(copies)
    ensures forall n | n in chain || n == root ::
              n.children == old(n.children) + if n == At(chain, root, from) && copies != [] then [copies[|copies| - 1]] else []
  {
    hide IsChain, Kept, HangTogether, StayAt, Positions;
    copies := [];
    var included;
    ghost var pos;
    included, pos := Included(parent, excludes, chain, root);
    var base, rest;
    base, rest, from := TrimIncluded(included, parent, root, chain, pos);
    hide *;
    SplitFacts(chain, parent, root, excludes, rest, from);
    if base == parent {
      WithoutExcludedIs(chain, parent, root, excludes, rest, from, []);
      return parent, chain, [], 0;
    }
    inner, copies := CopyInto(base, rest, root, chain[from..]);
    newChain := copies + chain[from..];
    WithoutExcludedIs(chain, parent, root, excludes, rest, from, copies);
  }

  lemma WithoutExcludedIs(chain: seq<CssNode>, parent: CssNode, root: CssNode, excludes: Query, rest: seq<CssNode>,
                          from: nat, copies: seq<CssNode>)
    requires IsChain(chain, parent, root) && from <= |chain| && Kept(chain, excludes) == rest + chain[from..]
    requires rest != [] && from > 0 ==> rest[|rest| - 1] != chain[from - 1]
    requires Rules(copies) == Rules(rest)
    ensures var newChain := copies + chain[from..];
            && Rules(newChain) == Rules(Kept(chain, excludes)) && WithoutExcluded(chain, excludes, newChain, copies, from)
            && (from == 0 && copies == [] ==> newChain == chain)
  {
    hide IsChain, Kept, StayAt, Rules;
    SplitFacts(chain, parent, root, excludes, rest, from);
    RulesConcat(copies, chain[from..]);
    var places := KeptStay(chain, excludes);
  }

  lemma SplitFacts(chain: seq<CssNode>, parent: CssNode, root: CssNode, excludes: Query, rest: seq<CssNode>, from: nat)
    requires IsChain(chain, parent, root) && from <= |chain| && Kept(chain, excludes) == rest + chain[from..]
    requires rest != [] && from > 0 ==> rest[|rest| - 1] != chain[from - 1]
    ensures from > 0 ==> excludes(chain[from - 1].rule)
    ensures forall i | from <= i < |chain| :: !excludes(chain[i].rule)
    ensures Rules(Kept(chain, excludes)) == Rules(rest) + Rules(chain[from..])
    ensures IsChain(chain[from..], At(chain, root, from), root) && forall n <- rest :: !n.isStylesheet
    ensures At(chain, root, from) == parent ==> from == 0 && chain[from..] == chain && rest == [] && Rules(rest) == Rules([])
    ensures At(chain, root, from) in chain + [root] && HangTogether([])
  {
    hide IsChain, Kept, Rules;
    KeptFromChain(chain, parent, root, excludes, from);
    SplitAtExcluded(chain, excludes, rest, from);
    UpperChain(chain, parent, root, from);
    RulesConcat(rest, chain[from..]);
    assert forall n <- rest :: n in Kept(chain, excludes);
    NoCopies();
  }

  lemma NoCopies()
    ensures HangTogether([])
  {}

  lemma RulesConcat(a: seq<CssNode>, b: seq<CssNode>)
    ensures Rules(a + b) == Rules(a) + Rules(b)
  {}

  lemma {:induction false} KeptMembers(chain: seq<CssNode>, excludes: Query)
    ensures |Kept(chain, excludes)| <= |chain|
    ensures forall n <- Kept(chain, excludes) :: n in chain && !excludes(n.rule)
  {
    if chain != [] {
      KeptMembers(chain[..|chain| - 1], excludes);
    }
  }

  lemma KeptFromChain(chain: seq<CssNode>, parent: CssNode, root: CssNode, excludes: Query, from: nat)
    requires IsChain(chain, parent, root) && from <= |chain|
    ensures |Kept(chain, excludes)| <= |chain| && forall n <- Kept(chain, excludes) :: !n.isStylesheet
    ensures At(chain, root, from) == parent ==> from == 0
  {
    KeptMembers(chain, excludes);
    if 0 < from < |chain| {
      ChainIsDistinct(chain, parent, root, 0, from);
    }
  }

  lemma UpperChain(chain: seq<CssNode>, parent: CssNode, root: CssNode, from: nat)
    requires IsChain(chain, parent, root) && from <= |chain|
    ensures IsChain(chain[from..], At(chain, root, from), root)
  {
    forall i | 0 <= i < |chain[from..]|
      ensures !chain[from..][i].isStylesheet && chain[from..][i].parent == At(chain[from..], root, i + 1)
    {
      assert chain[from..][i] == chain[from + i];
    }
  }
}
