/**
 The spans of one highlighted line: a stack turns the line's tokens into a tree (`node::from`),
 and the tree is flattened into nested spans around pieces of text (`node::spans`).
 */
module SpanTree {
  import opened Sequences

  datatype TokenT = TokenT(start: nat, stop: nat, kind: nat) {
    predicate Covers(x: int) {
      start <= x < stop
    }

    predicate Inside(other: TokenT) {
      other.start <= start && stop <= other.stop
    }
  }

  const WHITESPACE := 0

  datatype Node = Node(tok: TokenT, children: seq<Node>)

  datatype Span = TextSpan(begin: nat, end: nat) | KindSpan(kind: nat, contents: seq<Span>)

  /** Tokens in the order of `<=>`: by start, and the longer one first. */
  predicate Sorted(tokens: seq<TokenT>) {
    forall i, j | 0 <= i < j < |tokens| ::
      tokens[i].start <= tokens[j].start && (tokens[i].start == tokens[j].start ==> tokens[i].stop >= tokens[j].stop)
  }

  /** No later token starts inside an earlier one and ends behind it. */
  predicate Nested(tokens: seq<TokenT>) {
    forall i, j | 0 <= i < j < |tokens| :: tokens[i].stop <= tokens[j].start || tokens[j].stop <= tokens[i].stop
  }

  function Visible(tokens: seq<TokenT>): seq<TokenT> {
    if tokens == [] then []
    else (if tokens[0].kind == WHITESPACE then [] else [tokens[0]]) + Visible(tokens[1..])
  }

  lemma {:induction false} VisibleConcat(a: seq<TokenT>, b: seq<TokenT>)
    ensures Visible(a + b) == Visible(a) + Visible(b)
  {
    if a == [] {
      assert a + b == b;
    } else {
      var head := if a[0].kind == WHITESPACE then [] else [a[0]];
      assert (a + b)[0] == a[0] && (a + b)[1..] == a[1..] + b;
      VisibleConcat(a[1..], b);
      assert Visible(a + b) == head + (Visible(a[1..]) + Visible(b));
      assert Visible(a) == head + Visible(a[1..]);
    }
  }

  // ---------------------------------------------------------------------------
  // The tree

  /** The tokens of a tree, parents first. */
  function Preorder(node: Node): seq<TokenT> {
    [node.tok] + ForestPreorder(node.children)
  }

  function ForestPreorder(children: seq<Node>): seq<TokenT> {
    if children == [] then [] else Preorder(children[0]) + ForestPreorder(children[1..])
  }

  /** Children lie inside their parent, start one after the other and end strictly one after the other. */
  predicate Layered(node: Node) {
    node.tok.start <= node.tok.stop && LayeredForest(node.children, node.tok)
  }

  predicate LayeredForest(children: seq<Node>, parent: TokenT) {
    children == []
    || (children[0].tok.Inside(parent) && Layered(children[0]) && LayeredForest(children[1..], parent)
        && (|children| > 1 ==>
              children[0].tok.start <= children[1].tok.start && children[0].tok.stop < children[1].tok.stop))
  }

  lemma {:induction false} ForestPreorderConcat(a: seq<Node>, b: seq<Node>)
    ensures ForestPreorder(a + b) == ForestPreorder(a) + ForestPreorder(b)
  {
    if a == [] {
      assert a + b == b;
    } else {
      assert (a + b)[1..] == a[1..] + b;
      ForestPreorderConcat(a[1..], b);
    }
  }

  function Adopt(node: Node, child: Node): Node {
    Node(node.tok, node.children + [child])
  }

  lemma AdoptPreorder(node: Node, child: Node)
    ensures Preorder(Adopt(node, child)) == Preorder(node) + Preorder(child)
  {
    ForestPreorderConcat(node.children, [child]);
    assert [child][1..] == [];
  }

  /** A new last child fits when it lies inside the parent, behind the previous child. */
  predicate Fits(node: Node, tok: TokenT) {
    tok.Inside(node.tok)
    && (node.children != [] ==>
          node.children[|node.children| - 1].tok.start <= tok.start && node.children[|node.children| - 1].tok.stop < tok.stop)
  }

  lemma {:induction false} AdoptLayered(children: seq<Node>, child: Node, parent: TokenT)
    requires LayeredForest(children, parent) && Layered(child) && Fits(Node(parent, children), child.tok)
    ensures LayeredForest(children + [child], parent)
  {
    if children == [] {
      assert ([] + [child])[1..] == [];
    } else {
      assert (children + [child])[1..] == children[1..] + [child];
      if |children| > 1 {
        assert children[1..][|children| - 2] == children[|children| - 1];
      }
      AdoptLayered(children[1..], child, parent);
    }
  }

  // ---------------------------------------------------------------------------
  // The stack

  function Top(nodes: seq<Node>): Node
    requires nodes != []
  {
    nodes[|nodes| - 1]
  }

  /** The top is popped and becomes the last child of the node below. */
  function Popped(nodes: seq<Node>): (r: seq<Node>)
    requires |nodes| > 1
    ensures |r| == |nodes| - 1
  {
    nodes[..|nodes| - 2] + [Adopt(nodes[|nodes| - 2], Top(nodes))]
  }

  function Collapse(nodes: seq<Node>): Node
    requires nodes != []
    decreases |nodes|
  {
    if |nodes| == 1 then nodes[0] else Collapse(Popped(nodes))
  }

  /** Each node of the stack would be a fitting last child of the one below. */
  predicate Stacked(nodes: seq<Node>) {
    && (forall k | 0 <= k < |nodes| :: Layered(nodes[k]))
    && (forall k | 0 < k < |nodes| :: Fits(nodes[k - 1], nodes[k].tok))
  }

  lemma PoppedStacked(nodes: seq<Node>)
    requires |nodes| > 1 && Stacked(nodes)
    ensures Stacked(Popped(nodes))
  {
    var below, top := nodes[|nodes| - 2], Top(nodes);
    AdoptLayered(below.children, top, below.tok);
    var r := Popped(nodes);
    assert forall k | 0 <= k < |r| - 1 :: r[k] == nodes[k];
  }

  lemma {:induction false} CollapsePreorder(nodes: seq<Node>)
    requires nodes != []
    ensures Preorder(Collapse(nodes)) == ForestPreorder(nodes)
    decreases |nodes|
  {
    if |nodes| == 1 {
      assert nodes[1..] == [];
    } else {
      PoppedPreorder(nodes);
      CollapsePreorder(Popped(nodes));
    }
  }

  lemma PoppedPreorder(nodes: seq<Node>)
    requires |nodes| > 1
    ensures ForestPreorder(Popped(nodes)) == ForestPreorder(nodes)
  {
    var low, below, top := nodes[..|nodes| - 2], nodes[|nodes| - 2], Top(nodes);
    LastTwo(nodes);
    ForestPreorderConcat(low, [below] + [top]);
    ForestPreorderConcat(low, [Adopt(below, top)]);
    AdoptedPair(below, top);
  }

  lemma LastTwo(nodes: seq<Node>)
    requires |nodes| > 1
    ensures nodes == nodes[..|nodes| - 2] + ([nodes[|nodes| - 2]] + [Top(nodes)])
  {
  }

  lemma OneTree(node: Node)
    ensures ForestPreorder([node]) == Preorder(node)
  {
    assert [node][1..] == [];
  }

  lemma AdoptedPair(below: Node, top: Node)
    ensures ForestPreorder([Adopt(below, top)]) == ForestPreorder([below] + [top])
  {
    ForestPreorderConcat([below], [top]);
    OneTree(below);
    OneTree(top);
    OneTree(Adopt(below, top));
    AdoptPreorder(below, top);
  }

  lemma {:induction false} CollapseLayered(nodes: seq<Node>)
    requires nodes != [] && Stacked(nodes)
    ensures Layered(Collapse(nodes)) && Collapse(nodes).tok == nodes[0].tok
    decreases |nodes|
  {
    if |nodes| > 1 {
      PoppedStacked(nodes);
      CollapseLayered(Popped(nodes));
    }
  }

  /** Pops the top and appends it to the children of the node below. */
  method PopInto(nodes: seq<Node>) returns (r: seq<Node>)
    requires |nodes| > 1
    ensures r == Popped(nodes)
  {
    var top := Top(nodes);
    r := nodes[..|nodes| - 1];
    r := r[..|r| - 1] + [Adopt(r[|r| - 1], top)];
    assert nodes[..|nodes| - 1][..|nodes| - 2] == nodes[..|nodes| - 2];
  }

  /** Closes the whole stack, from the top. */
  method CloseAll(stack: seq<Node>) returns (result: Node)
    requires stack != []
    ensures result == Collapse(stack)
  {
    var nodes := stack;
    while |nodes| > 1
      invariant nodes != [] && Collapse(nodes) == Collapse(stack)
      decreases |nodes|
    {
      nodes := PopInto(nodes);
    }
    result := nodes[0];
  }

  /** Opens a visible token: closes what ends before it and puts it on top. */
  method Open(stack: seq<Node>, tok: TokenT, ghost later: seq<TokenT>, ghost all: seq<TokenT>, ghost length: nat)
    returns (nodes: seq<Node>)
    requires Growing(stack, [tok] + later, all, length)
    ensures Growing(nodes, later, all, length)
  {
    hide ForestPreorder, Sorted, Within, StartsBy, Stacked;
    Reassociate(ForestPreorder(stack), tok, later);
    TailSorted(tok, later);
    FrontWithin(tok, later, length);
    FrontStarts(stack, tok, later);
    nodes := CloseEarlier(stack, tok, length);
    PushStacked(nodes, tok);
    PushStartsBy(stack, nodes, tok, later);
    nodes := nodes + [Node(tok, [])];
  }

  lemma FrontWithin(tok: TokenT, later: seq<TokenT>, length: nat)
    requires Within([tok] + later, length)
    ensures tok.start <= tok.stop <= length && Within(later, length)
  {
    assert tok in [tok] + later && forall t | t in later :: t in [tok] + later;
  }

  lemma FrontStarts(stack: seq<Node>, tok: TokenT, later: seq<TokenT>)
    requires StartsBy(stack, [tok] + later)
    ensures StartsBy(stack, [tok])
  {
    assert tok in [tok] + later;
  }

  /** Builds the tree of a line: its nodes are the visible tokens, parents first, under one root
      for the whole line. */
  method From(tokens: seq<TokenT>, length: nat) returns (result: Node)
    requires Sorted(Visible(tokens)) && Within(Visible(tokens), length)
    ensures Preorder(result) == [TokenT(0, length, WHITESPACE)] + Visible(tokens)
    ensures Layered(result) && result.tok == TokenT(0, length, WHITESPACE)
  {
    ghost var root := TokenT(0, length, WHITESPACE);
    var nodes := [Node(TokenT(0, length, WHITESPACE), [])];
    RootOnly(Visible(tokens), length);
    assert tokens[0..] == tokens;
    hide Growing;
    var i := 0;
    while i < |tokens|
      invariant 0 <= i <= |tokens| && Growing(nodes, Visible(tokens[i..]), [root] + Visible(tokens), length)
    {
      NextVisible(tokens, i);
      if tokens[i].kind != WHITESPACE {
        nodes := Open(nodes, tokens[i], Visible(tokens[i + 1..]), [root] + Visible(tokens), length);
      }
      i := i + 1;
    }
    assert tokens[i..] == [];
    result := CloseAll(nodes);
    Grown(nodes, [root] + Visible(tokens), length);
  }

  /** The stack holds the visible tokens so far, and takes those to come. */
  ghost predicate Growing(nodes: seq<Node>, later: seq<TokenT>, all: seq<TokenT>, length: nat) {
    && nodes != [] && nodes[0].tok == TokenT(0, length, WHITESPACE) && Stacked(nodes) && Top(nodes).children == []
    && Sorted(later) && Within(later, length) && StartsBy(nodes, later)
    && ForestPreorder(nodes) + later == all
  }

  lemma Grown(nodes: seq<Node>, all: seq<TokenT>, length: nat)
    requires Growing(nodes, [], all, length)
    ensures nodes != [] && Preorder(Collapse(nodes)) == all
    ensures Layered(Collapse(nodes)) && Collapse(nodes).tok == TokenT(0, length, WHITESPACE)
  {
    hide Preorder, ForestPreorder, Layered, Stacked, Collapse;
    CollapsePreorder(nodes);
    CollapseLayered(nodes);
  }

  lemma RootOnly(tokens: seq<TokenT>, length: nat)
    requires Sorted(tokens) && Within(tokens, length)
    ensures var root := TokenT(0, length, WHITESPACE);
            Growing([Node(root, [])], tokens, [root] + tokens, length)
  {
    OneTree(Node(TokenT(0, length, WHITESPACE), []));
  }

  lemma NextVisible(tokens: seq<TokenT>, i: nat)
    requires i < |tokens|
    ensures var later := Visible(tokens[i + 1..]);
            Visible(tokens[i..]) == if tokens[i].kind == WHITESPACE then later else [tokens[i]] + later
  {
    assert tokens[i..][1..] == tokens[i + 1..] && [] + Visible(tokens[i + 1..]) == Visible(tokens[i + 1..]);
  }

  predicate Within(tokens: seq<TokenT>, length: nat) {
    forall t | t in tokens :: t.start <= t.stop <= length
  }

  predicate StartsBy(nodes: seq<Node>, tokens: seq<TokenT>) {
    forall k, t | 0 <= k < |nodes| && t in tokens :: nodes[k].tok.start <= t.start
  }

  lemma TailSorted(tok: TokenT, later: seq<TokenT>)
    requires Sorted([tok] + later)
    ensures Sorted(later) && forall t | t in later :: tok.start <= t.start
  {
    var all := [tok] + later;
    assert forall i | 0 <= i < |later| :: later[i] == all[i + 1];
    forall t | t in later
      ensures tok.start <= t.start
    {
      var k :| 0 <= k < |later| && later[k] == t;
      assert all[0] == tok && all[k + 1] == t;
    }
  }

  /** Each node of `nodes` comes from the node of `stack` at the same height. */
  predicate CutFrom(nodes: seq<Node>, stack: seq<Node>) {
    0 < |nodes| <= |stack| && forall k | 0 <= k < |nodes| :: nodes[k].tok == stack[k].tok
  }

  /** Closes every node that ends before `tok` does. */
  method CloseEarlier(stack: seq<Node>, tok: TokenT, ghost length: nat) returns (nodes: seq<Node>)
    requires stack != [] && stack[0].tok == TokenT(0, length, WHITESPACE) && Stacked(stack) && Top(stack).children == []
    requires tok.stop <= length && StartsBy(stack, [tok])
    ensures CutFrom(nodes, stack) && Stacked(nodes) && tok.stop <= Top(nodes).tok.stop
    ensures Fits(Top(nodes), tok)
    ensures ForestPreorder(nodes) == ForestPreorder(stack)
  {
    nodes := stack;
    assert tok in [tok];
    hide ForestPreorder, Layered;
    while nodes != [] && Top(nodes).tok.stop < tok.stop
      invariant CutFrom(nodes, stack) && Stacked(nodes)
      invariant Top(nodes).children != [] ==>
          var last := Top(nodes).children[|Top(nodes).children| - 1].tok;
          last.stop < tok.stop && last.start <= tok.start
      invariant ForestPreorder(nodes) == ForestPreorder(stack)
      decreases |nodes|
    {
      assert |nodes| > 1;
      PoppedStacked(nodes);
      PoppedPreorder(nodes);
      nodes := PopInto(nodes);
    }
  }

  lemma PushStacked(nodes: seq<Node>, tok: TokenT)
    requires nodes != [] && Stacked(nodes) && Fits(Top(nodes), tok) && tok.start <= tok.stop
    ensures Stacked(nodes + [Node(tok, [])])
    ensures ForestPreorder(nodes + [Node(tok, [])]) == ForestPreorder(nodes) + [tok]
  {
    ForestPreorderConcat(nodes, [Node(tok, [])]);
    assert [Node(tok, [])][1..] == [];
  }

  lemma PushStartsBy(stack: seq<Node>, nodes: seq<Node>, tok: TokenT, later: seq<TokenT>)
    requires CutFrom(nodes, stack) && StartsBy(stack, [tok] + later) && forall t | t in later :: tok.start <= t.start
    ensures StartsBy(nodes + [Node(tok, [])], later)
  {
    assert forall t | t in later :: t in [tok] + later;
  }

  // ---------------------------------------------------------------------------
  // The spans

  function U32(n: nat): nat {
    n % 0x1_0000_0000
  }

  function Text(from: nat, to: nat): seq<Span> {
    if from < to then [TextSpan(U32(from), U32(to))] else []
  }

  function Spans(node: Node): seq<Span> {
    Cleanup(RawSpans(node.children, node.tok.start, node.tok.stop))
  }

  /** The text up to each child, the child, and the text behind the last one. */
  function RawSpans(children: seq<Node>, prev: nat, stop: nat): seq<Span> {
    if children == [] then Text(prev, stop)
    else
      Text(prev, children[0].tok.start) + [KindSpan(children[0].tok.kind, Spans(children[0]))]
      + RawSpans(children[1..], children[0].tok.stop, stop)
  }

  /** Drops the spans that hold nothing, from the inside out. */
  function Cleanup(items: seq<Span>): seq<Span> {
    if items == [] then []
    else
      match items[0]
      case TextSpan(_, _) => [items[0]] + Cleanup(items[1..])
      case KindSpan(kind, contents) =>
        var cleaned := Cleanup(contents);
        (if cleaned == [] then [] else [KindSpan(kind, cleaned)]) + Cleanup(items[1..])
  }

  method AddText(items: seq<Span>, from: nat, to: nat) returns (r: seq<Span>)
    ensures r == items + Text(from, to)
  {
    r := items;
    if from < to {
      r := r + [TextSpan(U32(from), U32(to))];
    }
  }

  method NodeSpans(node: Node) returns (result: seq<Span>)
    ensures result == Spans(node)
    decreases node
  {
    result := [];
    var prev: nat := node.tok.start;
    ghost var all := RawSpans(node.children, prev, node.tok.stop);
    var i := 0;
    while i < |node.children|
      invariant 0 <= i <= |node.children|
      invariant result + RawSpans(node.children[i..], prev, node.tok.stop) == all
    {
      var child := node.children[i];
      RawSpansStep(result, node.children, i, prev, node.tok.stop);
      result := AddText(result, prev, child.tok.start);
      var inner := NodeSpans(child);
      result := result + [KindSpan(child.tok.kind, inner)];
      prev := child.tok.stop;
      i := i + 1;
    }
    result := AddText(result, prev, node.tok.stop);
    result := Cleanup(result);
  }

  lemma RawSpansStep(done: seq<Span>, children: seq<Node>, i: nat, prev: nat, stop: nat)
    requires i < |children|
    ensures var child := children[i];
            done + RawSpans(children[i..], prev, stop)
            == done + Text(prev, child.tok.start) + [KindSpan(child.tok.kind, Spans(child))]
               + RawSpans(children[i + 1..], child.tok.stop, stop)
  {
    assert children[i..][1..] == children[i + 1..];
    var child := children[i];
    var tail := RawSpans(children[i + 1..], child.tok.stop, stop);
    assert RawSpans(children[i..], prev, stop)
        == Text(prev, child.tok.start) + [KindSpan(child.tok.kind, Spans(child))] + tail;
  }

  // ---------------------------------------------------------------------------
  // The text leaves, each with the kinds around it

  datatype TextLeaf = TextLeaf(begin: nat, end: nat, kinds: seq<nat>)

  function TextLeaves(items: seq<Span>, kinds: seq<nat>): seq<TextLeaf> {
    if items == [] then []
    else
      (match items[0]
       case TextSpan(begin, end) => [TextLeaf(begin, end, kinds)]
       case KindSpan(kind, contents) => TextLeaves(contents, kinds + [kind])) + TextLeaves(items[1..], kinds)
  }

  lemma {:induction false} TextLeavesConcat(a: seq<Span>, b: seq<Span>, kinds: seq<nat>)
    ensures TextLeaves(a + b, kinds) == TextLeaves(a, kinds) + TextLeaves(b, kinds)
  {
    if a == [] {
      assert a + b == b;
    } else {
      assert (a + b)[1..] == a[1..] + b;
      TextLeavesConcat(a[1..], b, kinds);
    }
  }

  /** Clean-up never touches text. */
  lemma {:induction false} CleanupKeepsText(items: seq<Span>, kinds: seq<nat>)
    ensures TextLeaves(Cleanup(items), kinds) == TextLeaves(items, kinds)
    decreases items
  {
    if items == [] {
    } else {
      CleanupKeepsText(items[1..], kinds);
      match items[0]
      case TextSpan(_, _) =>
        TextLeavesConcat([items[0]], Cleanup(items[1..]), kinds);
        assert [items[0]][1..] == [];
      case KindSpan(kind, contents) =>
        CleanupKeepsText(contents, kinds + [kind]);
        var head := if Cleanup(contents) == [] then [] else [KindSpan(kind, Cleanup(contents))];
        TextLeavesConcat(head, Cleanup(items[1..]), kinds);
        assert head != [] ==> head[1..] == [];
    }
  }

  /** The kinds of the nodes that hold byte `x`, outermost first. */
  function PathAt(children: seq<Node>, x: int): seq<nat> {
    if children == [] then []
    else
      (if children[0].tok.Covers(x) then [children[0].tok.kind] + PathAt(children[0].children, x) else [])
      + PathAt(children[1..], x)
  }

  function KindsAt(tokens: seq<TokenT>, x: int): seq<nat> {
    if tokens == [] then []
    else (if tokens[0].Covers(x) then [tokens[0].kind] else []) + KindsAt(tokens[1..], x)
  }

  lemma {:induction false} KindsAtConcat(a: seq<TokenT>, b: seq<TokenT>, x: int)
    ensures KindsAt(a + b, x) == KindsAt(a, x) + KindsAt(b, x)
  {
    if a == [] {
      assert a + b == b;
    } else {
      var head := if a[0].Covers(x) then [a[0].kind] else [];
      assert (a + b)[0] == a[0] && (a + b)[1..] == a[1..] + b;
      KindsAtConcat(a[1..], b, x);
      assert KindsAt(a + b, x) == head + (KindsAt(a[1..], x) + KindsAt(b, x));
      assert KindsAt(a, x) == head + KindsAt(a[1..], x);
    }
  }

  /** In a layered tree the nodes that hold a byte are exactly the tokens that cover it, in order. */
  lemma {:induction false} PathIsKinds(children: seq<Node>, parent: TokenT, x: int)
    requires LayeredForest(children, parent)
    ensures PathAt(children, x) == KindsAt(ForestPreorder(children), x)
    ensures !parent.Covers(x) ==> PathAt(children, x) == []
    decreases children
  {
    if children == [] {
    } else {
      var child := children[0];
      PathIsKinds(child.children, child.tok, x);
      PathIsKinds(children[1..], parent, x);
      KindsAtConcat([child.tok], ForestPreorder(child.children), x);
      assert [child.tok][1..] == [];
      KindsAtConcat(Preorder(child), ForestPreorder(children[1..]), x);
    }
  }

  // ---------------------------------------------------------------------------
  // Partition

  /** The leaves follow each other from `from` to `to`, without gap or overlap. */
  predicate Partition(leaves: seq<TextLeaf>, from: nat, to: nat) {
    if leaves == [] then from == to
    else leaves[0].begin == from && from < leaves[0].end && Partition(leaves[1..], leaves[0].end, to)
  }

  lemma {:induction false} PartitionConcat(a: seq<TextLeaf>, b: seq<TextLeaf>, from: nat, mid: nat, to: nat)
    requires Partition(a, from, mid) && Partition(b, mid, to)
    ensures Partition(a + b, from, to)
  {
    if a == [] {
      assert a + b == b;
    } else {
      assert (a + b)[1..] == a[1..] + b;
      PartitionConcat(a[1..], b, a[0].end, mid, to);
    }
  }

  /** Children also start where or after the previous one ended. */
  predicate Disjoint(node: Node) {
    DisjointForest(node.children, node.tok.start)
  }

  predicate DisjointForest(children: seq<Node>, prev: nat) {
    children == []
    || (prev <= children[0].tok.start && Disjoint(children[0]) && DisjointForest(children[1..], children[0].tok.stop))
  }

  /** For each byte of the leaf its kinds are `kinds` and those of the nodes that hold the byte. */
  ghost predicate Labelled(leaf: TextLeaf, kinds: seq<nat>, children: seq<Node>) {
    forall x | leaf.begin <= x < leaf.end :: leaf.kinds == kinds + PathAt(children, x)
  }

  ghost predicate AllLabelled(leaves: seq<TextLeaf>, kinds: seq<nat>, children: seq<Node>) {
    forall i | 0 <= i < |leaves| :: Labelled(leaves[i], kinds, children)
  }

  lemma {:induction false} PartitionBounds(leaves: seq<TextLeaf>, from: nat, to: nat)
    requires Partition(leaves, from, to)
    ensures from <= to && forall i | 0 <= i < |leaves| :: from <= leaves[i].begin < leaves[i].end <= to
  {
    if leaves == [] {
    } else {
      PartitionBounds(leaves[1..], leaves[0].end, to);
      assert forall i | 1 <= i < |leaves| :: leaves[i] == leaves[1..][i - 1];
    }
  }

  lemma {:induction false} NothingBefore(children: seq<Node>, parent: TokenT, prev: nat, x: int)
    requires LayeredForest(children, parent) && DisjointForest(children, prev) && x < prev
    ensures PathAt(children, x) == []
    decreases children
  {
    if children == [] {
    } else {
      NothingBefore(children[1..], parent, children[0].tok.stop, x);
    }
  }

  lemma TextLeafOf(from: nat, to: nat, kinds: seq<nat>)
    requires to < 0x1_0000_0000
    ensures TextLeaves(Text(from, to), kinds) == if from < to then [TextLeaf(from, to, kinds)] else []
  {
    assert Text(from, to) != [] ==> Text(from, to)[1..] == [];
  }

  lemma KindLeavesOf(kind: nat, contents: seq<Span>, kinds: seq<nat>)
    ensures TextLeaves([KindSpan(kind, contents)], kinds) == TextLeaves(contents, kinds + [kind])
  {
    assert [KindSpan(kind, contents)][1..] == [];
  }

  /** The leaves of a forest: the text in front, the first child, and the rest. */
  lemma RawLeaves(children: seq<Node>, prev: nat, stop: nat, kinds: seq<nat>)
    requires children != [] && children[0].tok.start < 0x1_0000_0000
    ensures var child := children[0];
            TextLeaves(RawSpans(children, prev, stop), kinds)
            == (if prev < child.tok.start then [TextLeaf(prev, child.tok.start, kinds)] else [])
               + TextLeaves(Spans(child), kinds + [child.tok.kind])
               + TextLeaves(RawSpans(children[1..], child.tok.stop, stop), kinds)
  {
    var child := children[0];
    var text, span := Text(prev, child.tok.start), [KindSpan(child.tok.kind, Spans(child))];
    TextLeavesConcat(text + span, RawSpans(children[1..], child.tok.stop, stop), kinds);
    TextLeavesConcat(text, span, kinds);
    TextLeafOf(prev, child.tok.start, kinds);
    KindLeavesOf(child.tok.kind, Spans(child), kinds);
  }

  /** The spans of a disjoint tree spell out the line once, and label every byte. */
  lemma {:induction false} SpansPartition(node: Node, kinds: seq<nat>)
    requires Layered(node) && Disjoint(node) && node.tok.stop < 0x1_0000_0000
    ensures var leaves := TextLeaves(Spans(node), kinds);
            Partition(leaves, node.tok.start, node.tok.stop) && AllLabelled(leaves, kinds, node.children)
    decreases node
  {
    CleanupKeepsText(RawSpans(node.children, node.tok.start, node.tok.stop), kinds);
    RawSpansPartition(node.children, node.tok, node.tok.start, kinds);
  }

  lemma {:induction false} RawSpansPartition(children: seq<Node>, parent: TokenT, prev: nat, kinds: seq<nat>)
    requires LayeredForest(children, parent) && DisjointForest(children, prev)
    requires prev <= parent.stop < 0x1_0000_0000
    ensures var leaves := TextLeaves(RawSpans(children, prev, parent.stop), kinds);
            Partition(leaves, prev, parent.stop) && AllLabelled(leaves, kinds, children)
    decreases children
  {
    if children == [] {
      TextLeafOf(prev, parent.stop, kinds);
    } else {
      var child, rest := children[0], children[1..];
      SpansPartition(child, kinds + [child.tok.kind]);
      RawSpansPartition(rest, parent, child.tok.stop, kinds);
      RawLeaves(children, prev, parent.stop, kinds);
      var a := if prev < child.tok.start then [TextLeaf(prev, child.tok.start, kinds)] else [];
      var b := TextLeaves(Spans(child), kinds + [child.tok.kind]);
      var c := TextLeaves(RawSpans(rest, child.tok.stop, parent.stop), kinds);
      RawParts(children, parent, prev, kinds, a, b, c);
    }
  }

  lemma RawParts(children: seq<Node>, parent: TokenT, prev: nat, kinds: seq<nat>,
                 a: seq<TextLeaf>, b: seq<TextLeaf>, c: seq<TextLeaf>)
    requires children != [] && LayeredForest(children, parent) && DisjointForest(children, prev)
    requires var child, rest := children[0], children[1..];
             && a == (if prev < child.tok.start then [TextLeaf(prev, child.tok.start, kinds)] else [])
             && Partition(b, child.tok.start, child.tok.stop) && AllLabelled(b, kinds + [child.tok.kind], child.children)
             && Partition(c, child.tok.stop, parent.stop) && AllLabelled(c, kinds, rest)
    ensures Partition(a + b + c, prev, parent.stop) && AllLabelled(a + b + c, kinds, children)
  {
    var child := children[0];
    PartitionConcat(a, b, prev, child.tok.start, child.tok.stop);
    PartitionConcat(a + b, c, prev, child.tok.stop, parent.stop);
    TextLabelled(a, children, parent, prev, kinds);
    ChildLabelled(b, children, parent, prev, kinds);
    RestLabelled(c, children, parent, kinds);
  }

  /** Text in front of the first child lies in no child. */
  lemma TextLabelled(leaves: seq<TextLeaf>, children: seq<Node>, parent: TokenT, prev: nat, kinds: seq<nat>)
    requires children != [] && LayeredForest(children, parent) && DisjointForest(children, prev)
    requires forall i | 0 <= i < |leaves| :: leaves[i].kinds == kinds && leaves[i].end <= children[0].tok.start
    ensures AllLabelled(leaves, kinds, children)
  {
    forall i, x | 0 <= i < |leaves| && leaves[i].begin <= x < leaves[i].end
      ensures leaves[i].kinds == kinds + PathAt(children, x)
    {
      NothingBefore(children[1..], parent, children[0].tok.stop, x);
    }
  }

  lemma ChildPath(children: seq<Node>, parent: TokenT, prev: nat, x: int)
    requires children != [] && LayeredForest(children, parent) && DisjointForest(children, prev)
    requires children[0].tok.Covers(x)
    ensures PathAt(children, x) == [children[0].tok.kind] + PathAt(children[0].children, x)
  {
    NothingBefore(children[1..], parent, children[0].tok.stop, x);
  }

  lemma ChildLabelled(leaves: seq<TextLeaf>, children: seq<Node>, parent: TokenT, prev: nat, kinds: seq<nat>)
    requires children != [] && LayeredForest(children, parent) && DisjointForest(children, prev)
    requires Partition(leaves, children[0].tok.start, children[0].tok.stop)
    requires AllLabelled(leaves, kinds + [children[0].tok.kind], children[0].children)
    ensures AllLabelled(leaves, kinds, children)
  {
    var child := children[0];
    PartitionBounds(leaves, child.tok.start, child.tok.stop);
    forall i, x | 0 <= i < |leaves| && leaves[i].begin <= x < leaves[i].end
      ensures leaves[i].kinds == kinds + PathAt(children, x)
    {
      assert Labelled(leaves[i], kinds + [child.tok.kind], child.children);
      ChildPath(children, parent, prev, x);
      assert kinds + ([child.tok.kind] + PathAt(child.children, x)) == (kinds + [child.tok.kind]) + PathAt(child.children, x);
    }
  }

  lemma RestLabelled(leaves: seq<TextLeaf>, children: seq<Node>, parent: TokenT, kinds: seq<nat>)
    requires children != [] && LayeredForest(children, parent)
    requires Partition(leaves, children[0].tok.stop, parent.stop)
    requires AllLabelled(leaves, kinds, children[1..])
    ensures AllLabelled(leaves, kinds, children)
  {
    PartitionBounds(leaves, children[0].tok.stop, parent.stop);
    forall i | 0 <= i < |leaves|
      ensures Labelled(leaves[i], kinds, children)
    {
      LeafBehind(leaves[i], children, kinds);
    }
  }

  lemma LeafBehind(leaf: TextLeaf, children: seq<Node>, kinds: seq<nat>)
    requires children != [] && children[0].tok.stop <= leaf.begin && Labelled(leaf, kinds, children[1..])
    ensures Labelled(leaf, kinds, children)
  {
    forall x | leaf.begin <= x < leaf.end
      ensures PathAt(children, x) == PathAt(children[1..], x)
    {
      assert PathAt(children, x) == [] + PathAt(children[1..], x);
    }
  }

  // ---------------------------------------------------------------------------
  // A partition is only possible without overlap: the text is never shorter than the line, and
  // every overlap makes it longer

  function TextLength(leaves: seq<TextLeaf>): int {
    if leaves == [] then 0 else leaves[0].end - leaves[0].begin + TextLength(leaves[1..])
  }

  lemma {:induction false} TextLengthConcat(a: seq<TextLeaf>, b: seq<TextLeaf>)
    ensures TextLength(a + b) == TextLength(a) + TextLength(b)
  {
    if a == [] {
      assert a + b == b;
    } else {
      assert (a + b)[1..] == a[1..] + b;
      TextLengthConcat(a[1..], b);
    }
  }

  lemma {:induction false} PartitionLength(leaves: seq<TextLeaf>, from: nat, to: nat)
    requires Partition(leaves, from, to)
    ensures TextLength(leaves) == to - from
  {
    if leaves == [] {
    } else {
      PartitionLength(leaves[1..], leaves[0].end, to);
    }
  }

  lemma {:induction false} OverlapLengthens(node: Node, kinds: seq<nat>)
    requires Layered(node) && node.tok.stop < 0x1_0000_0000
    ensures var length := TextLength(TextLeaves(Spans(node), kinds));
            length >= node.tok.stop - node.tok.start && (length == node.tok.stop - node.tok.start ==> Disjoint(node))
    decreases node
  {
    CleanupKeepsText(RawSpans(node.children, node.tok.start, node.tok.stop), kinds);
    OverlapLengthensForest(node.children, node.tok, node.tok.start, kinds);
  }

  lemma {:induction false} OverlapLengthensForest(children: seq<Node>, parent: TokenT, prev: nat, kinds: seq<nat>)
    requires LayeredForest(children, parent) && prev <= parent.stop < 0x1_0000_0000
    ensures var length := TextLength(TextLeaves(RawSpans(children, prev, parent.stop), kinds));
            length >= parent.stop - prev && (length == parent.stop - prev ==> DisjointForest(children, prev))
    decreases children
  {
    if children == [] {
      TextLeafOf(prev, parent.stop, kinds);
    } else {
      var child, rest := children[0], children[1..];
      OverlapLengthens(child, kinds + [child.tok.kind]);
      OverlapLengthensForest(rest, parent, child.tok.stop, kinds);
      RawLeaves(children, prev, parent.stop, kinds);
      var a := if prev < child.tok.start then [TextLeaf(prev, child.tok.start, kinds)] else [];
      var b := TextLeaves(Spans(child), kinds + [child.tok.kind]);
      TextLengthConcat(a + b, TextLeaves(RawSpans(rest, child.tok.stop, parent.stop), kinds));
      TextLengthConcat(a, b);
    }
  }

  // ---------------------------------------------------------------------------
  // Disjoint trees come from exactly the nested token lists

  predicate Apart(a: seq<TokenT>, b: seq<TokenT>) {
    forall s, t | s in a && t in b :: s.stop <= t.start || t.stop <= s.stop
  }

  lemma NestedParts(a: seq<TokenT>, b: seq<TokenT>)
    ensures Nested(a + b) ==> Nested(a) && Nested(b)
    ensures Nested(a) && Nested(b) && Apart(a, b) ==> Nested(a + b)
  {
    var all := a + b;
    if Nested(all) {
      forall i, j | 0 <= i < j < |a|
        ensures a[i].stop <= a[j].start || a[j].stop <= a[i].stop
      {
        assert all[i] == a[i] && all[j] == a[j];
      }
      forall i, j | 0 <= i < j < |b|
        ensures b[i].stop <= b[j].start || b[j].stop <= b[i].stop
      {
        assert all[|a| + i] == b[i] && all[|a| + j] == b[j];
      }
    }
  }

  lemma ForestMembers(children: seq<Node>)
    requires children != []
    ensures forall t | t in ForestPreorder(children) ::
              (t == children[0].tok || t in ForestPreorder(children[0].children) || t in ForestPreorder(children[1..]))
  {
  }

  lemma {:induction false} ForestInside(children: seq<Node>, parent: TokenT)
    requires LayeredForest(children, parent)
    ensures forall t | t in ForestPreorder(children) :: t.Inside(parent) && t.start <= t.stop
    decreases children
  {
    if children == [] {
    } else {
      ForestInside(children[0].children, children[0].tok);
      ForestInside(children[1..], parent);
      ForestMembers(children);
    }
  }

  lemma {:induction false} ForestBehind(children: seq<Node>, parent: TokenT, prev: nat)
    requires LayeredForest(children, parent) && DisjointForest(children, prev)
    ensures forall t | t in ForestPreorder(children) :: prev <= t.start
    decreases children
  {
    if children == [] {
    } else {
      ForestInside(children[0].children, children[0].tok);
      ForestBehind(children[1..], parent, children[0].tok.stop);
      ForestMembers(children);
    }
  }

  lemma NestedInside(tok: TokenT, inner: seq<TokenT>)
    requires forall t | t in inner :: t.Inside(tok)
    ensures Nested([tok] + inner) <==> Nested(inner)
  {
    NestedParts([tok], inner);
  }

  /** The first child, what is in it, and what is behind it. */
  lemma FirstChild(children: seq<Node>, parent: TokenT)
    requires children != [] && LayeredForest(children, parent)
    ensures var child, rest := children[0], children[1..];
            var inner, behind := ForestPreorder(child.children), ForestPreorder(rest);
            && children == [child] + rest && ForestPreorder(children) == [child.tok] + inner + behind
            && (Nested(ForestPreorder(children)) ==> Nested(inner) && Nested(behind))
            && (Nested(inner) && Nested(behind) && Apart([child.tok] + inner, behind) ==> Nested(ForestPreorder(children)))
  {
    var child := children[0];
    ForestInside(child.children, child.tok);
    NestedInside(child.tok, ForestPreorder(child.children));
    NestedParts([child.tok] + ForestPreorder(child.children), ForestPreorder(children[1..]));
  }

  lemma {:induction false} DisjointIsNested(children: seq<Node>, parent: TokenT, prev: nat)
    requires LayeredForest(children, parent) && (children != [] ==> prev <= children[0].tok.start)
    ensures DisjointForest(children, prev) <==> Nested(ForestPreorder(children))
    decreases children
  {
    if children == [] {
    } else {
      var child, rest := children[0], children[1..];
      FirstChild(children, parent);
      DisjointIsNested(child.children, child.tok, child.tok.start);
      if Nested(ForestPreorder(children)) && rest != [] {
        NextBehind(child, rest, parent, ForestPreorder(child.children));
        DisjointIsNested(rest, parent, child.tok.stop);
      } else if DisjointForest(children, prev) {
        assert DisjointForest(rest, child.tok.stop);
        DisjointIsNested(rest, parent, child.tok.stop);
        BehindIsApart(child, rest, parent);
      }
    }
  }

  lemma BehindIsApart(child: Node, rest: seq<Node>, parent: TokenT)
    requires Layered(child) && LayeredForest(rest, parent) && DisjointForest(rest, child.tok.stop)
    ensures Apart([child.tok] + ForestPreorder(child.children), ForestPreorder(rest))
  {
    ForestInside(child.children, child.tok);
    ForestBehind(rest, parent, child.tok.stop);
  }

  lemma NextBehind(child: Node, rest: seq<Node>, parent: TokenT, inner: seq<TokenT>)
    requires rest != [] && LayeredForest([child] + rest, parent)
    requires Nested([child.tok] + inner + ForestPreorder(rest))
    ensures child.tok.stop <= rest[0].tok.start
  {
    var all := [child.tok] + inner + ForestPreorder(rest);
    assert ([child] + rest)[1..] == rest && ([child] + rest)[1] == rest[0];
    assert ForestPreorder(rest) == [rest[0].tok] + ForestPreorder(rest[0].children) + ForestPreorder(rest[1..]);
    assert all[0] == child.tok && all[1 + |inner|] == rest[0].tok;
  }

  // ---------------------------------------------------------------------------
  // A line from tokens to text

  /** The text of a line is a partition of it exactly when the visible tokens are nested; then every
      byte is shown under the kinds of the visible tokens that cover it, outermost first. */
  lemma LineSpans(tokens: seq<TokenT>, length: nat, tree: Node)
    requires length < 0x1_0000_0000 && Layered(tree) && tree.tok == TokenT(0, length, WHITESPACE)
    requires Preorder(tree) == [TokenT(0, length, WHITESPACE)] + Visible(tokens)
    ensures var leaves := TextLeaves(Spans(tree), []);
            && (Partition(leaves, 0, length) <==> Nested(Visible(tokens)))
            && (Nested(Visible(tokens)) ==>
                  forall i, x | 0 <= i < |leaves| && leaves[i].begin <= x < leaves[i].end ::
                    leaves[i].kinds == KindsAt(Visible(tokens), x))
  {
    var leaves := TextLeaves(Spans(tree), []);
    assert ForestPreorder(tree.children) == Preorder(tree)[1..] == Visible(tokens);
    DisjointIsNested(tree.children, tree.tok, 0);
    if Partition(leaves, 0, length) {
      PartitionLength(leaves, 0, length);
      OverlapLengthens(tree, []);
    }
    if Nested(Visible(tokens)) {
      SpansPartition(tree, []);
      forall i, x | 0 <= i < |leaves| && leaves[i].begin <= x < leaves[i].end
        ensures leaves[i].kinds == KindsAt(Visible(tokens), x)
      {
        assert Labelled(leaves[i], [], tree.children);
        PathIsKinds(tree.children, tree.tok, x);
      }
    }
  }
}
