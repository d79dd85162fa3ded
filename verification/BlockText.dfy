/**
 The tree of blocks holds the text it was built from: nothing is lost but blanks, and nothing is
 added but the closing brackets that were missing.
 */
module BlockText {
  import opened Terms
  import opened Lexing
  import opened Blocks

  /** The text of a piece. */
  function Flat(piece: Piece): string
    decreases piece, 0
  {
    match piece
    case Chars(text) => text
    case Plain(token) => Spelling(token)
    case Nested(block) => Spelling(block.start) + FlatAll(block.tokens) + Spelling(block.stop)
  }

  function FlatAll(pieces: seq<Piece>): string
    decreases pieces
  {
    if pieces == [] then "" else Flat(pieces[0]) + FlatAll(pieces[1..])
  }

  /** The brackets still to be closed at the end of a text, innermost first. A closing bracket only
      closes the innermost one; anywhere else it is a token like any other. */
  function Pending(lexemes: seq<Lexeme>, open: seq<Token>): seq<Token>
    decreases |lexemes|
  {
    if lexemes == [] then open
    else if !lexemes[0].Symbol? then Pending(lexemes[1..], open)
    else
      var token := lexemes[0].token;
      if open != [] && token == open[0] then Pending(lexemes[1..], open[1..])
      else if Opens(token) then Pending(lexemes[1..], [Closer(token)] + open)
      else Pending(lexemes[1..], open)
  }

  function Spelled(tokens: seq<Token>): string {
    if tokens == [] then "" else Spelling(tokens[0]) + Spelled(tokens[1..])
  }

  lemma SpelledCons(token: Token, tokens: seq<Token>)
    ensures Spelled([token] + tokens) == Spelling(token) + Spelled(tokens)
  {
    assert ([token] + tokens)[1..] == tokens;
  }

  lemma FlatCons(piece: Piece, pieces: seq<Piece>)
    ensures FlatAll([piece] + pieces) == Flat(piece) + FlatAll(pieces)
  {
    assert ([piece] + pieces)[1..] == pieces;
  }

  lemma FlatPrepended(word: string, pieces: seq<Piece>)
    ensures FlatAll(Prepended(word, pieces)) == word + FlatAll(pieces)
  {
    if pieces != [] && pieces[0].Chars? {
      FlatCons(Chars(word + pieces[0].text), pieces[1..]);
    } else {
      FlatCons(Chars(word), pieces);
    }
  }

  lemma FlatNested(token: Token, inner: seq<Piece>, later: seq<Piece>)
    ensures FlatAll([Nested(BlockOf(token, inner))] + later) ==
            Spelling(token) + (FlatAll(inner) + Spelling(Closer(token)) + FlatAll(later))
  {
    FlatCons(Nested(BlockOf(token, inner)), later);
  }

  /** What is known of a block built inside the brackets `outer`: a closed one ends where the stack
      of open brackets is back at `outer`; one that is not lacks the closing brackets. */
  ghost predicate Conserves(lexemes: seq<Lexeme>, end: Token, outer: seq<Token>) {
    BuiltConserves(lexemes, Build(lexemes, end), end, outer)
  }

  ghost predicate BuiltConserves(lexemes: seq<Lexeme>, built: Built, end: Token, outer: seq<Token>) {
    if built.closed then
      && ShownAll(lexemes) == FlatAll(built.pieces) + Spelling(end) + ShownAll(built.rest)
      && Pending(lexemes, [end] + outer) == Pending(built.rest, outer)
    else
      FlatAll(built.pieces) + Spelling(end) + Spelled(outer) ==
      ShownAll(lexemes) + Spelled(Pending(lexemes, [end] + outer))
  }

  lemma FrontText(shown: string, flat: string, end: string, behind: string, text: string, added: string)
    requires flat + end + behind == text + added
    ensures (shown + flat) + end + behind == (shown + text) + added
  {
    assert (shown + flat) + end + behind == shown + (flat + end + behind);
    assert (shown + text) + added == shown + (text + added);
  }

  /** A lexeme that only adds its text in front of a block. */
  lemma FrontConserves(first: Lexeme, rest: seq<Lexeme>, built: Built, pieces: seq<Piece>, end: Token, outer: seq<Token>)
    requires BuiltConserves(rest, built, end, outer)
    requires FlatAll(pieces) == first.Shown() + FlatAll(built.pieces)
    requires first.Symbol? ==> first.token != end && !Opens(first.token)
    ensures BuiltConserves([first] + rest, Built(pieces, built.rest, built.closed), end, outer)
  {
    var lexemes := [first] + rest;
    assert lexemes[1..] == rest;
    var flat, last := FlatAll(built.pieces), Spelling(end);
    assert Pending(lexemes, [end] + outer) == Pending(rest, [end] + outer);
    assert ShownAll(lexemes) == first.Shown() + ShownAll(rest);
    if built.closed {
      assert flat + last + ShownAll(built.rest) == ShownAll(rest) + "";
      FrontText(first.Shown(), flat, last, ShownAll(built.rest), ShownAll(rest), "");
    } else {
      FrontText(first.Shown(), flat, last, Spelled(outer), ShownAll(rest), Spelled(Pending(rest, [end] + outer)));
    }
  }

  lemma ConservesClosed(lexemes: seq<Lexeme>, end: Token, outer: seq<Token>)
    requires lexemes != [] && lexemes[0] == Symbol(end)
    ensures Conserves(lexemes, end, outer)
  {
    assert ([end] + outer)[1..] == outer;
  }

  lemma BothClosed(open: string, text: string, inner: string, close: string,
                   rest: string, later: string, end: string, behind: string)
    requires text == inner + close + rest && rest == later + end + behind
    ensures open + text == (open + (inner + close + later)) + end + behind
  {
    assert open + (inner + close + (later + end + behind)) == (open + (inner + close + later)) + end + behind;
  }

  lemma LaterOpen(open: string, text: string, inner: string, close: string,
                  rest: string, later: string, end: string, outer: string, added: string)
    requires text == inner + close + rest && later + end + outer == rest + added
    ensures (open + (inner + close + later)) + end + outer == (open + text) + added
  {
    assert (open + (inner + close + later)) + end + outer == open + (inner + close + (later + end + outer));
    assert open + (inner + close + (rest + added)) == (open + (inner + close + rest)) + added;
  }

  lemma InnerOpen(open: string, text: string, inner: string, close: string, end: string, outer: string, added: string)
    requires inner + close + (end + outer) == text + added
    ensures (open + (inner + close + "")) + end + outer == (open + text) + added
  {
    assert (open + (inner + close + "")) + end + outer == open + (inner + close + (end + outer));
    assert open + (text + added) == (open + text) + added;
  }

  /** A block inside the block, and what follows it. */
  lemma NestedConserves(lexemes: seq<Lexeme>, token: Token, inner: Built, later: Built, end: Token, outer: seq<Token>)
    requires lexemes != [] && lexemes[0] == Symbol(token)
    requires Pending(lexemes, [end] + outer) == Pending(lexemes[1..], [Closer(token)] + ([end] + outer))
    requires BuiltConserves(lexemes[1..], inner, Closer(token), [end] + outer)
    requires BuiltConserves(inner.rest, later, end, outer)
    requires !inner.closed ==> inner.rest == [] && later == Built([], [], false)
    ensures BuiltConserves(lexemes, later.After(Nested(BlockOf(token, inner.pieces))), end, outer)
  {
    var open := Spelling(token);
    FlatNested(token, inner.pieces, later.pieces);
    SpelledCons(end, outer);
    var text, added := ShownAll(lexemes[1..]), Spelled(Pending(lexemes, [end] + outer));
    var close, last := Spelling(Closer(token)), Spelling(end);
    if !inner.closed {
      InnerOpen(open, text, FlatAll(inner.pieces), close, last, Spelled(outer), added);
    } else if later.closed {
      BothClosed(open, text, FlatAll(inner.pieces), close,
                 ShownAll(inner.rest), FlatAll(later.pieces), last, ShownAll(later.rest));
    } else {
      LaterOpen(open, text, FlatAll(inner.pieces), close,
                ShownAll(inner.rest), FlatAll(later.pieces), last, Spelled(outer), added);
    }
  }

  lemma ConservesNested(lexemes: seq<Lexeme>, token: Token, end: Token, outer: seq<Token>)
    requires lexemes != [] && lexemes[0] == Symbol(token) && token != end && Opens(token)
    requires Conserves(lexemes[1..], Closer(token), [end] + outer)
    requires Conserves(Build(lexemes[1..], Closer(token)).rest, end, outer)
    ensures Conserves(lexemes, end, outer)
  {
    var inner := Build(lexemes[1..], Closer(token));
    NestedConserves(lexemes, token, inner, Build(inner.rest, end), end, outer);
  }

  lemma ConservesNothing(end: Token, outer: seq<Token>)
    ensures Conserves([], end, outer)
  {
    SpelledCons(end, outer);
  }

  lemma ConservesFront(first: Lexeme, rest: seq<Lexeme>, end: Token, outer: seq<Token>)
    requires Conserves(rest, end, outer)
    requires first.Symbol? ==> first.token != end && !Opens(first.token)
    ensures Conserves([first] + rest, end, outer)
  {
    var built, all := Build(rest, end), Build([first] + rest, end);
    BuildStep(first, rest, end);
    hide Build, BuiltConserves;
    if first.Word? {
      FlatPrepended(first.text, built.pieces);
    } else {
      FlatCons(Plain(first.token), built.pieces);
    }
    FrontConserves(first, rest, built, all.pieces, end, outer);
  }

  lemma {:induction false} BuildConserves(lexemes: seq<Lexeme>, end: Token, outer: seq<Token>)
    ensures Conserves(lexemes, end, outer)
    decreases |lexemes|
  {
    hide Conserves, Build;
    if lexemes == [] {
      ConservesNothing(end, outer);
    } else {
      var first, rest := lexemes[0], lexemes[1..];
      assert lexemes == [first] + rest;
      if first == Symbol(end) {
        ConservesClosed(lexemes, end, outer);
      } else if first.Symbol? && Opens(first.token) {
        var inner := Build(rest, Closer(first.token));
        BuildConserves(rest, Closer(first.token), [end] + outer);
        BuildConserves(inner.rest, end, outer);
        ConservesNested(lexemes, first.token, end, outer);
      } else {
        BuildConserves(rest, end, outer);
        ConservesFront(first, rest, end, outer);
      }
    }
  }

  /** Only the outermost block has nothing to close it. */
  /** Closing brackets, and the end of the text behind them. */
  predicate EndsInNone(open: seq<Token>) {
    open != [] && open[|open| - 1] == NONE && forall i | 0 <= i < |open| - 1 :: Spelling(open[i]) != ""
  }

  lemma CloserIsSpelled(token: Token)
    requires Opens(token)
    ensures Spelling(Closer(token)) != ""
  {
  }

  lemma {:induction false} PendingEndsInNone(lexemes: seq<Lexeme>, open: seq<Token>)
    requires EndsInNone(open) && Symbol(NONE) !in lexemes
    ensures EndsInNone(Pending(lexemes, open))
    decreases |lexemes|
  {
    if lexemes == [] {
    } else {
      if lexemes[0].Symbol? {
        var token := lexemes[0].token;
        assert lexemes[0] in lexemes;
        if token == open[0] {
          PendingEndsInNone(lexemes[1..], open[1..]);
        } else if Opens(token) {
          CloserIsSpelled(token);
          PendingEndsInNone(lexemes[1..], [Closer(token)] + open);
        } else {
          PendingEndsInNone(lexemes[1..], open);
        }
      } else {
        PendingEndsInNone(lexemes[1..], open);
      }
    }
  }

  lemma {:induction false} NoneIsNoLexeme(operators: seq<string>, s: string)
    ensures Symbol(NONE) !in Lexemes(operators, s)
    decreases |s|
  {
    if s == "" {
    } else {
      NoneIsNoLexeme(operators, Lex(operators, s).rest);
    }
  }

  /** What a name is parsed into. */
  function Parsed(operators: seq<string>, s: string): seq<Piece> {
    Build(Lexemes(operators, s), NONE).pieces
  }

  /** The brackets a name leaves open. */
  function LeftOpen(operators: seq<string>, s: string): seq<Token> {
    Pending(Lexemes(operators, s), [NONE])
  }

  lemma {:induction false} NeverClosed(lexemes: seq<Lexeme>)
    requires Symbol(NONE) !in lexemes
    ensures !Build(lexemes, NONE).closed
    ensures Symbol(NONE) !in Build(lexemes, NONE).rest
    decreases |lexemes|
  {
    if lexemes == [] {
    } else {
      assert lexemes[0] in lexemes;
      if lexemes[0].Symbol? && Opens(lexemes[0].token) {
        var inner := Build(lexemes[1..], Closer(lexemes[0].token));
        RestIsLater(lexemes[1..], Closer(lexemes[0].token));
        NeverClosed(inner.rest);
      } else {
        NeverClosed(lexemes[1..]);
      }
    }
  }

  lemma {:induction false} RestIsLater(lexemes: seq<Lexeme>, end: Token)
    ensures forall l | l in Build(lexemes, end).rest :: l in lexemes
    decreases |lexemes|
  {
    if lexemes != [] && lexemes[0] != Symbol(end) {
      if lexemes[0].Symbol? && Opens(lexemes[0].token) {
        RestIsLater(lexemes[1..], Closer(lexemes[0].token));
        RestIsLater(Build(lexemes[1..], Closer(lexemes[0].token)).rest, end);
      } else {
        RestIsLater(lexemes[1..], end);
      }
    }
  }

  lemma {:induction false} SpelledNothing(tokens: seq<Token>)
    requires tokens != [] && tokens[|tokens| - 1] == NONE
    requires forall i | 0 <= i < |tokens| - 1 :: Spelling(tokens[i]) != ""
    ensures Spelled(tokens) == "" <==> tokens == [NONE]
  {
    if |tokens| > 1 {
      SpelledCons(tokens[0], tokens[1..]);
    } else {
      assert tokens == [NONE] && tokens[1..] == [];
    }
  }

  /** The text of the tree is the name, blanks collapsed, and behind it one closing bracket for each
      bracket left open. It is the name itself exactly if none is. */
  lemma TextIsConserved(operators: seq<string>, s: string)
    requires IsTable(operators)
    ensures FlatAll(Parsed(operators, s)) == Collapsed(s) + Spelled(LeftOpen(operators, s))
    ensures FlatAll(Parsed(operators, s)) == Collapsed(s) <==> LeftOpen(operators, s) == [NONE]
  {
    hide Lexemes, Collapsed, Build, Pending, FlatAll, Spelled, ShownAll;
    var lexemes := Lexemes(operators, s);
    LexemesConserve(operators, s);
    NoneIsNoLexeme(operators, s);
    NeverClosed(lexemes);
    BuildConserves(lexemes, NONE, []);
    assert [NONE] + [] == [NONE];
    PendingEndsInNone(lexemes, [NONE]);
    SpelledNothing(LeftOpen(operators, s));
    NothingBehind(FlatAll(Parsed(operators, s)));
    SameText(Collapsed(s), Spelled(LeftOpen(operators, s)));
  }

  lemma NothingBehind(text: string)
    ensures text + Spelling(NONE) + Spelled([]) == text
  {
  }

  lemma SameText(text: string, added: string)
    ensures text + added == text <==> added == ""
  {
    if text + added == text {
      assert |text + added| == |text| + |added|;
    }
  }

  // ---------------------------------------------------------------------------
  // The shape of the tree

  predicate IsPair(start: Token, stop: Token) {
    || (start == OPEN_PAREN && stop == CLOSE_PAREN) || (start == OPEN_ANGLE_BRACKET && stop == CLOSE_ANGLE_BRACKET)
    || (start == OPEN_CURLY && stop == CLOSE_CURLY) || (start == OPEN_BRACKET && stop == CLOSE_BRACKET)
  }

  /** In a block that ends at `end` that token is not among the pieces; each bracket that opens starts a
      block with the bracket that closes it, which takes arguments if it is `(` or `<`; and no two
      words are next to each other. */
  predicate WellBuilt(pieces: seq<Piece>, end: Token)
    decreases pieces
  {
    pieces == []
    || (WellPiece(pieces[0], end) && WellBuilt(pieces[1..], end)
        && (|pieces| > 1 ==> !(pieces[0].Chars? && pieces[1].Chars?)))
  }

  predicate WellPiece(piece: Piece, end: Token)
    decreases piece
  {
    match piece
    case Chars(_) => true
    case Plain(token) => token != end && token !in {OPEN_PAREN, OPEN_ANGLE_BRACKET, OPEN_CURLY, OPEN_BRACKET}
    case Nested(block) =>
      && IsPair(block.start, block.stop) && WellBuilt(block.tokens, block.stop)
      && (block.hasArgs <==> block.start in {OPEN_PAREN, OPEN_ANGLE_BRACKET})
  }

  lemma WellBuiltFront(piece: Piece, pieces: seq<Piece>, end: Token)
    requires WellPiece(piece, end) && WellBuilt(pieces, end)
    requires piece.Chars? && pieces != [] ==> !pieces[0].Chars?
    ensures WellBuilt([piece] + pieces, end)
  {
    assert ([piece] + pieces)[1..] == pieces;
  }

  lemma WellPrepended(word: string, pieces: seq<Piece>, end: Token)
    requires WellBuilt(pieces, end)
    ensures WellBuilt(Prepended(word, pieces), end)
  {
    if pieces != [] && pieces[0].Chars? {
      WellBuiltFront(Chars(word + pieces[0].text), pieces[1..], end);
    } else {
      WellBuiltFront(Chars(word), pieces, end);
    }
  }

  lemma {:induction false} BuildIsWell(lexemes: seq<Lexeme>, end: Token)
    ensures WellBuilt(Build(lexemes, end).pieces, end)
    decreases |lexemes|
  {
    if lexemes == [] {
    } else {
      var first, rest := lexemes[0], lexemes[1..];
      assert lexemes == [first] + rest;
      BuildStep(first, rest, end);
      hide Build, WellBuilt, WellPiece, Closer, BlockOf, Prepended;
      if first.Word? {
        BuildIsWell(rest, end);
        WellPrepended(first.text, Build(rest, end).pieces, end);
      } else if first.token == end {
        NothingIsWell(end);
      } else if Opens(first.token) {
        var inner := Build(rest, Closer(first.token));
        BuildIsWell(rest, Closer(first.token));
        BuildIsWell(inner.rest, end);
        WellNested(first.token, inner.pieces, Build(inner.rest, end).pieces, end);
      } else {
        BuildIsWell(rest, end);
        WellPlain(first.token, Build(rest, end).pieces, end);
      }
    }
  }

  lemma WellNested(token: Token, inner: seq<Piece>, later: seq<Piece>, end: Token)
    requires Opens(token) && WellBuilt(inner, Closer(token)) && WellBuilt(later, end)
    ensures WellBuilt([Nested(BlockOf(token, inner))] + later, end)
  {
    hide WellBuilt;
    WellBuiltFront(Nested(BlockOf(token, inner)), later, end);
  }

  lemma WellPlain(token: Token, later: seq<Piece>, end: Token)
    requires token != end && !Opens(token) && WellBuilt(later, end)
    ensures WellBuilt([Plain(token)] + later, end)
  {
    hide WellBuilt;
    WellBuiltFront(Plain(token), later, end);
  }

  lemma NothingIsWell(end: Token)
    ensures WellBuilt([], end)
  {
  }

  /** Parses a name with the operators of C++. */
  method BlockFrom(name: string) returns (block: Block)
    ensures block.tokens == Parsed(OPERATORS, name)
    ensures FlatAll(block.tokens) == Collapsed(name) + Spelled(LeftOpen(OPERATORS, name))
    ensures FlatAll(block.tokens) == Collapsed(name) <==> LeftOpen(OPERATORS, name) == [NONE]
    ensures WellBuilt(block.tokens, NONE) && !block.hasArgs
  {
    BuildIsWell(Lexemes(OPERATORS, name), NONE);
    var parser := new Parser(name, OPERATORS);
    block := parser.WholeBlock();
    OperatorsAreATable();
    TextIsConserved(OPERATORS, name);
  }

  // ---------------------------------------------------------------------------
  // Arguments

  /** Pieces between commas. */
  predicate NoComma(pieces: seq<Piece>) {
    Plain(COMMA) !in pieces
  }

  function WithCommas(items: seq<seq<Piece>>): seq<Piece> {
    if items == [] then [] else if |items| == 1 then items[0] else items[0] + [Plain(COMMA)] + WithCommas(items[1..])
  }

  /** Every item, and a comma behind each. */
  function CommaEnded(items: seq<seq<Piece>>): seq<Piece> {
    if items == [] then [] else items[0] + [Plain(COMMA)] + CommaEnded(items[1..])
  }

  lemma {:induction false} CommaEndedSnoc(items: seq<seq<Piece>>, item: seq<Piece>)
    ensures CommaEnded(items + [item]) == CommaEnded(items) + (item + [Plain(COMMA)])
  {
    if items == [] {
      assert items + [item] == [item] && [item][1..] == [];
    } else {
      CommaEndedSnoc(items[1..], item);
      assert (items + [item])[1..] == items[1..] + [item] && (items + [item])[0] == items[0];
    }
  }

  lemma {:induction false} WithCommasSnoc(items: seq<seq<Piece>>, item: seq<Piece>)
    ensures WithCommas(items + [item]) == CommaEnded(items) + item
  {
    if items == [] {
      assert items + [item] == [item];
    } else {
      WithCommasSnoc(items[1..], item);
      assert (items + [item])[1..] == items[1..] + [item] && (items + [item])[0] == items[0];
    }
  }

  /** The items between the commas of a block. Joined with commas they are the block again; only
      behind a last comma no empty item is made. */
  method ToArgs(tokens: seq<Piece>) returns (items: seq<seq<Piece>>)
    ensures forall i | 0 <= i < |items| :: NoComma(items[i])
    ensures if EndsInComma(tokens) then tokens == CommaEnded(items)
            else items != [] && items[|items| - 1] != [] && tokens == WithCommas(items)
  {
    items := [];
    var prev := 0;
    hide ItemsUpto;
    NoItems(tokens);
    for index := 0 to |tokens|
      invariant prev <= index && ItemsUpto(tokens, items, prev, index)
    {
      NextItem(tokens, items, prev, index);
      if tokens[index] == Plain(COMMA) {
        items := items + [tokens[prev..index]];
        prev := index + 1;
      }
    }
    AllItems(tokens, items, prev);
    if prev < |tokens| {
      items := items + [tokens[prev..]];
    }
  }

  /** Nothing is left behind the last comma. */
  predicate EndsInComma(tokens: seq<Piece>) {
    tokens == [] || tokens[|tokens| - 1] == Plain(COMMA)
  }

  /** The items that end in a comma in front of `prev`, and no comma from there to `index`. */
  ghost predicate ItemsUpto(tokens: seq<Piece>, items: seq<seq<Piece>>, prev: nat, index: nat) {
    && prev <= index <= |tokens| && tokens[..prev] == CommaEnded(items) && NoComma(tokens[prev..index])
    && (forall i | 0 <= i < |items| :: NoComma(items[i])) && (prev == 0 <==> items == [])
  }

  lemma NoItems(tokens: seq<Piece>)
    ensures ItemsUpto(tokens, [], 0, 0)
  {
  }

  lemma NextItem(tokens: seq<Piece>, items: seq<seq<Piece>>, prev: nat, index: nat)
    requires ItemsUpto(tokens, items, prev, index) && index < |tokens|
    ensures prev <= index
    ensures if tokens[index] == Plain(COMMA) then ItemsUpto(tokens, items + [tokens[prev..index]], index + 1, index + 1)
            else ItemsUpto(tokens, items, prev, index + 1)
  {
    hide CommaEnded;
    if tokens[index] == Plain(COMMA) {
      CommaEndedSnoc(items, tokens[prev..index]);
      assert tokens[..index + 1] == tokens[..prev] + (tokens[prev..index] + [Plain(COMMA)]);
    } else {
      assert tokens[prev..index + 1] == tokens[prev..index] + [tokens[index]];
    }
  }

  lemma AllItems(tokens: seq<Piece>, items: seq<seq<Piece>>, prev: nat)
    requires ItemsUpto(tokens, items, prev, |tokens|)
    ensures forall i | 0 <= i < |items| :: NoComma(items[i])
    ensures prev <= |tokens| && NoComma(tokens[prev..])
    ensures prev == |tokens| <==> EndsInComma(tokens)
    ensures prev < |tokens| ==> tokens == WithCommas(items + [tokens[prev..]])
    ensures prev == |tokens| ==> tokens == CommaEnded(items)
  {
    assert tokens[prev..|tokens|] == tokens[prev..] && tokens == tokens[..prev] + tokens[prev..];
    hide CommaEnded, WithCommas, NoComma, EndsInComma;
    WithCommasSnoc(items, tokens[prev..]);
    if prev < |tokens| {
      NoCommaBehind(tokens, prev);
    } else {
      CommaIsLast(tokens, items);
    }
  }

  lemma NoCommaBehind(tokens: seq<Piece>, prev: nat)
    requires prev < |tokens| && NoComma(tokens[prev..])
    ensures !EndsInComma(tokens)
  {
    assert tokens[prev..][|tokens| - 1 - prev] == tokens[|tokens| - 1];
  }

  lemma CommaIsLast(tokens: seq<Piece>, items: seq<seq<Piece>>)
    requires tokens[..|tokens|] == CommaEnded(items)
    ensures tokens == CommaEnded(items) && EndsInComma(tokens)
  {
    CommaBehind(items);
    assert tokens[..|tokens|] == tokens;
  }

  lemma CommaBehind(items: seq<seq<Piece>>)
    ensures CommaEnded(items) == WithCommas(items) + if items == [] then [] else [Plain(COMMA)]
  {
    if items == [] {
      return;
    }
    hide CommaEnded, WithCommas;
    var n := |items| - 1;
    assert items == items[..n] + [items[n]];
    CommaEndedSnoc(items[..n], items[n]);
    WithCommasSnoc(items[..n], items[n]);
  }
}
