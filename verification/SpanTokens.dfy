/**
 Reading a line's tokens back from its spans: each visible token that holds a byte is one span around
 exactly its bytes, in the order of the tokens, and no span is empty.
 */
module SpanTokens {
  import opened Sequences
  import opened SpanTree

  // ---------------------------------------------------------------------------
  // Where spans begin and end

  /** Spans hold something, at any depth. */
  predicate NoneEmpty(items: seq<Span>) {
    items == [] || (HoldsText(items[0]) && NoneEmpty(items[1..]))
  }

  predicate HoldsText(span: Span) {
    span.KindSpan? ==> span.contents != [] && NoneEmpty(span.contents)
  }

  function Begin(items: seq<Span>): nat {
    if items == [] then 0
    else
      match items[0]
      case TextSpan(begin, _) => begin
      case KindSpan(_, contents) => Begin(contents)
  }

  function End(items: seq<Span>): nat {
    if items == [] then 0
    else if |items| > 1 then End(items[1..])
    else
      match items[0]
      case TextSpan(_, end) => end
      case KindSpan(_, contents) => End(contents)
  }

  /** The tokens that the spans stand for, those around others first. */
  function ReadSpans(items: seq<Span>): seq<TokenT> {
    if items == [] then []
    else
      (match items[0]
       case TextSpan(_, _) => []
       case KindSpan(kind, contents) => [TokenT(Begin(contents), End(contents), kind)] + ReadSpans(contents))
      + ReadSpans(items[1..])
  }

  /** The tokens that hold a byte. */
  function WithBytes(tokens: seq<TokenT>): seq<TokenT> {
    if tokens == [] then []
    else (if tokens[0].start < tokens[0].stop then [tokens[0]] else []) + WithBytes(tokens[1..])
  }

  // ---------------------------------------------------------------------------
  // Clean-up

  /** Cleaning up leaves no empty span at any depth, and once is enough. */
  lemma {:induction false} CleanupLeavesNone(items: seq<Span>)
    ensures NoneEmpty(Cleanup(items))
    decreases items
  {
    if items == [] {
    } else {
      CleanupLeavesNone(items[1..]);
      match items[0]
      case TextSpan(_, _) => NoneEmptyFront(items[0], Cleanup(items[1..]));
      case KindSpan(kind, contents) =>
        CleanupLeavesNone(contents);
        if Cleanup(contents) != [] {
          NoneEmptyFront(KindSpan(kind, Cleanup(contents)), Cleanup(items[1..]));
        } else {
          assert Cleanup(items) == [] + Cleanup(items[1..]) == Cleanup(items[1..]);
        }
    }
  }

  lemma NoneEmptyFront(span: Span, items: seq<Span>)
    requires HoldsText(span) && NoneEmpty(items)
    ensures NoneEmpty([span] + items)
  {
    assert ([span] + items)[1..] == items;
  }

  lemma {:induction false} CleanupTwice(items: seq<Span>)
    requires NoneEmpty(items)
    ensures Cleanup(items) == items
    decreases items
  {
    if items == [] {
    } else {
      CleanupTwice(items[1..]);
      assert items == [items[0]] + items[1..];
      if items[0].KindSpan? {
        CleanupTwice(items[0].contents);
      }
    }
  }

  lemma {:induction false} CleanupConcat(a: seq<Span>, b: seq<Span>)
    ensures Cleanup(a + b) == Cleanup(a) + Cleanup(b)
  {
    if a == [] {
      assert a + b == b;
    } else {
      assert (a + b)[0] == a[0] && (a + b)[1..] == a[1..] + b;
      CleanupConcat(a[1..], b);
      Associative(match a[0]
                  case TextSpan(_, _) => [a[0]]
                  case KindSpan(kind, contents) => if Cleanup(contents) == [] then [] else [KindSpan(kind, Cleanup(contents))],
                  Cleanup(a[1..]), Cleanup(b));
    }
  }

  lemma SpansHoldText(node: Node)
    ensures NoneEmpty(Spans(node))
  {
    CleanupLeavesNone(RawSpans(node.children, node.tok.start, node.tok.stop));
  }

  // ---------------------------------------------------------------------------
  // The spans of a node begin and end with it

  lemma {:induction false} EndsOfLeaves(items: seq<Span>, kinds: seq<nat>)
    requires NoneEmpty(items) && items != []
    ensures var leaves := TextLeaves(items, kinds);
            leaves != [] && Begin(items) == leaves[0].begin && End(items) == leaves[|leaves| - 1].end
    decreases items
  {
    assert items == [items[0]] + items[1..];
    TextLeavesConcat([items[0]], items[1..], kinds);
    assert [items[0]][1..] == [];
    if items[0].KindSpan? {
      EndsOfLeaves(items[0].contents, kinds + [items[0].kind]);
    }
    if |items| > 1 {
      EndsOfLeaves(items[1..], kinds);
    } else {
      assert items[1..] == [];
    }
  }

  lemma {:induction false} PartitionEnds(leaves: seq<TextLeaf>, from: nat, to: nat)
    requires Partition(leaves, from, to)
    ensures leaves == [] <==> from == to
    ensures leaves != [] ==> leaves[0].begin == from && leaves[|leaves| - 1].end == to
  {
    if leaves == [] {
    } else {
      PartitionEnds(leaves[1..], leaves[0].end, to);
      PartitionBounds(leaves, from, to);
    }
  }

  lemma SpansExtent(node: Node)
    requires Layered(node) && Disjoint(node) && node.tok.stop < 0x1_0000_0000
    ensures Spans(node) == [] <==> node.tok.start == node.tok.stop
    ensures Spans(node) != [] ==> Begin(Spans(node)) == node.tok.start && End(Spans(node)) == node.tok.stop
  {
    SpansHoldText(node);
    SpansPartition(node, []);
    PartitionEnds(TextLeaves(Spans(node), []), node.tok.start, node.tok.stop);
    if Spans(node) != [] {
      EndsOfLeaves(Spans(node), []);
    }
  }

  // ---------------------------------------------------------------------------
  // Reading

  lemma {:induction false} ReadConcat(a: seq<Span>, b: seq<Span>)
    ensures ReadSpans(a + b) == ReadSpans(a) + ReadSpans(b)
  {
    if a == [] {
      assert a + b == b;
    } else {
      assert (a + b)[0] == a[0] && (a + b)[1..] == a[1..] + b;
      ReadConcat(a[1..], b);
      Associative(match a[0]
                  case TextSpan(_, _) => []
                  case KindSpan(kind, contents) => [TokenT(Begin(contents), End(contents), kind)] + ReadSpans(contents),
                  ReadSpans(a[1..]), ReadSpans(b));
    }
  }

  lemma ReadText(from: nat, to: nat)
    ensures Cleanup(Text(from, to)) == Text(from, to) && ReadSpans(Text(from, to)) == []
  {
    if from < to {
      assert [TextSpan(U32(from), U32(to))][1..] == [];
    }
  }

  lemma ReadKind(kind: nat, contents: seq<Span>)
    requires NoneEmpty(contents)
    ensures ReadSpans(Cleanup([KindSpan(kind, contents)])) ==
            if contents == [] then [] else [TokenT(Begin(contents), End(contents), kind)] + ReadSpans(contents)
  {
    CleanupTwice(contents);
    assert [KindSpan(kind, contents)][1..] == [];
  }

  lemma {:induction false} WithBytesConcat(a: seq<TokenT>, b: seq<TokenT>)
    ensures WithBytes(a + b) == WithBytes(a) + WithBytes(b)
  {
    if a == [] {
      assert a + b == b;
    } else {
      assert (a + b)[0] == a[0] && (a + b)[1..] == a[1..] + b;
      WithBytesConcat(a[1..], b);
      Associative(if a[0].start < a[0].stop then [a[0]] else [], WithBytes(a[1..]), WithBytes(b));
    }
  }

  /** The spans of a node stand for exactly the tokens inside it that hold a byte. */
  lemma {:induction false} ReadNode(node: Node)
    requires Layered(node) && Disjoint(node) && node.tok.stop < 0x1_0000_0000
    ensures ReadSpans(Spans(node)) == WithBytes(ForestPreorder(node.children))
    decreases node
  {
    ReadForest(node.children, node.tok, node.tok.start);
  }

  lemma {:induction false} ReadForest(children: seq<Node>, parent: TokenT, prev: nat)
    requires LayeredForest(children, parent) && DisjointForest(children, prev) && parent.stop < 0x1_0000_0000
    ensures ReadSpans(Cleanup(RawSpans(children, prev, parent.stop))) == WithBytes(ForestPreorder(children))
    decreases children
  {
    if children == [] {
      ReadText(prev, parent.stop);
    } else {
      var child, rest := children[0], children[1..];
      ReadNode(child);
      ReadForest(rest, parent, child.tok.stop);
      SpansExtent(child);
      SpansHoldText(child);
      ReadText(prev, child.tok.start);
      assert children == [child] + rest;
      ReadChild(child, Text(prev, child.tok.start), RawSpans(rest, child.tok.stop, parent.stop));
      TokensOfChild(child, rest);
      assert RawSpans(children, prev, parent.stop) ==
          Text(prev, child.tok.start) + [KindSpan(child.tok.kind, Spans(child))] + RawSpans(rest, child.tok.stop, parent.stop);
      hide RawSpans, Cleanup, ReadSpans, WithBytes, ForestPreorder, Spans, LayeredForest, DisjointForest, Text;
      assert child.tok.start == child.tok.stop ==> ReadSpans(Spans(child)) == [];
    }
  }

  lemma ReadChild(child: Node, text: seq<Span>, later: seq<Span>)
    requires NoneEmpty(Spans(child)) && Cleanup(text) == text && ReadSpans(text) == []
    requires Spans(child) == [] <==> child.tok.start == child.tok.stop
    requires Spans(child) != [] ==> Begin(Spans(child)) == child.tok.start && End(Spans(child)) == child.tok.stop
    ensures ReadSpans(Cleanup(text + [KindSpan(child.tok.kind, Spans(child))] + later)) ==
            (if child.tok.start == child.tok.stop then [] else [child.tok] + ReadSpans(Spans(child)))
            + ReadSpans(Cleanup(later))
  {
    var span := [KindSpan(child.tok.kind, Spans(child))];
    CleanupConcat(text + span, later);
    CleanupConcat(text, span);
    ReadConcat(Cleanup(text + span), Cleanup(later));
    ReadConcat(text, Cleanup(span));
    ReadKind(child.tok.kind, Spans(child));
    hide Cleanup, ReadSpans, Spans, Begin, End, NoneEmpty;
    var read := ReadSpans(Cleanup(span));
    assert read == if child.tok.start == child.tok.stop then [] else [child.tok] + ReadSpans(Spans(child));
    assert [] + read == read;
  }

  lemma TokensOfChild(child: Node, rest: seq<Node>)
    requires child.tok.start <= child.tok.stop
    ensures WithBytes(ForestPreorder([child] + rest)) ==
            (if child.tok.start < child.tok.stop then [child.tok] else []) + WithBytes(ForestPreorder(child.children))
            + WithBytes(ForestPreorder(rest))
  {
    ForestPreorderConcat([child], rest);
    OneTree(child);
    WithBytesConcat(Preorder(child), ForestPreorder(rest));
    WithBytesConcat([child.tok], ForestPreorder(child.children));
    assert [child.tok][1..] == [];
  }

  /** The spans of a line, read back, are its visible tokens, but for those that hold no byte. */
  lemma LineReads(tokens: seq<TokenT>, length: nat, tree: Node)
    requires length < 0x1_0000_0000 && Layered(tree) && tree.tok == TokenT(0, length, WHITESPACE)
    requires Preorder(tree) == [TokenT(0, length, WHITESPACE)] + Visible(tokens) && Nested(Visible(tokens))
    ensures ReadSpans(Spans(tree)) == WithBytes(Visible(tokens)) && NoneEmpty(Spans(tree))
  {
    assert ForestPreorder(tree.children) == Preorder(tree)[1..] == Visible(tokens);
    DisjointIsNested(tree.children, tree.tok, 0);
    ReadNode(tree);
    SpansHoldText(tree);
  }
}
