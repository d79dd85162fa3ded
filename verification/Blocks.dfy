/**
 Nesting the lexemes of a name by their brackets.
 */
module Blocks {
  import opened Wrappers
  import opened Terms
  import opened Lexing

  datatype Piece = Chars(text: string) | Plain(token: Token) | Nested(block: Block)

  datatype Block = Block(start: Token, stop: Token, hasArgs: bool, tokens: seq<Piece>)

  /** The bracket that closes an opening one; nothing for other tokens. */
  function Closer(token: Token): Token {
    match token
    case OPEN_PAREN => CLOSE_PAREN
    case OPEN_ANGLE_BRACKET => CLOSE_ANGLE_BRACKET
    case OPEN_CURLY => CLOSE_CURLY
    case OPEN_BRACKET => CLOSE_BRACKET
    case _ => NONE
  }

  predicate Opens(token: Token) {
    Closer(token) != NONE
  }

  predicate TakesArguments(token: Token) {
    token == OPEN_PAREN || token == OPEN_ANGLE_BRACKET
  }

  /** A word in front of other pieces; adjacent words become one. */
  function Prepended(word: string, pieces: seq<Piece>): seq<Piece> {
    if pieces != [] && pieces[0].Chars? then [Chars(word + pieces[0].text)] + pieces[1..] else [Chars(word)] + pieces
  }

  datatype Built = Built(pieces: seq<Piece>, rest: seq<Lexeme>, closed: bool) {
    function After(piece: Piece): Built {
      Built([piece] + pieces, rest, closed)
    }

    function AfterWord(word: string): Built {
      Built(Prepended(word, pieces), rest, closed)
    }
  }

  /** The pieces up to the token that ends a block, or up to the last lexeme. */
  function Build(lexemes: seq<Lexeme>, end: Token): (r: Built)
    ensures |r.rest| <= |lexemes| && (!r.closed ==> r.rest == [])
    decreases |lexemes|
  {
    if lexemes == [] then Built([], [], false)
    else if lexemes[0].Word? then Build(lexemes[1..], end).AfterWord(lexemes[0].text)
    else
      var token := lexemes[0].token;
      if token == end then Built([], lexemes[1..], true)
      else if Opens(token) then
        var inner := Build(lexemes[1..], Closer(token));
        Build(inner.rest, end).After(Nested(BlockOf(token, inner.pieces)))
      else Build(lexemes[1..], end).After(Plain(token))
  }

  function BlockOf(token: Token, pieces: seq<Piece>): Block {
    Block(token, Closer(token), TakesArguments(token), pieces)
  }

  // ---------------------------------------------------------------------------
  // The parser

  /** What has been collected, and what is still to come. */
  function Joined(before: seq<Piece>, after: Built): Built {
    if before != [] && before[|before| - 1].Chars? then
      Built(before[..|before| - 1] + Prepended(before[|before| - 1].text, after.pieces), after.rest, after.closed)
    else Built(before + after.pieces, after.rest, after.closed)
  }

  lemma JoinedIsConcat(before: seq<Piece>, after: Built)
    requires after.pieces == [] || !after.pieces[0].Chars?
    ensures Joined(before, after).pieces == before + after.pieces
  {
    if before != [] && before[|before| - 1].Chars? {
      var front, last := before[..|before| - 1], before[|before| - 1];
      assert last == Chars(last.text);
      assert front + ([last] + after.pieces) == (front + [last]) + after.pieces;
      assert before == front + [last];
    }
  }

  lemma JoinedPiece(before: seq<Piece>, piece: Piece, after: Built)
    requires !piece.Chars?
    ensures Joined(before, after.After(piece)) == Joined(before + [piece], after)
  {
    JoinedIsConcat(before, after.After(piece));
    assert before + ([piece] + after.pieces) == (before + [piece]) + after.pieces;
  }

  lemma JoinedWord(before: seq<Piece>, word: string, after: Built)
    ensures Joined(before, after.AfterWord(word)) ==
            if before != [] && before[|before| - 1].Chars?
            then Joined(before[|before| - 1 := Chars(before[|before| - 1].text + word)], after)
            else Joined(before + [Chars(word)], after)
  {
    if before != [] && before[|before| - 1].Chars? {
      var n := |before| - 1;
      var longer := before[n := Chars(before[n].text + word)];
      assert longer[..n] == before[..n] && longer[n].text == before[n].text + word;
      if after.pieces != [] && after.pieces[0].Chars? {
        assert before[n].text + (word + after.pieces[0].text) == before[n].text + word + after.pieces[0].text;
      }
    } else {
      assert (before + [Chars(word)])[..|before|] == before;
    }
  }

  /** A word behind other pieces goes on with the last one if that is a word too. */
  method PushWord(tokens: seq<Piece>, word: string) returns (r: seq<Piece>)
    ensures r == if tokens != [] && tokens[|tokens| - 1].Chars?
                 then tokens[|tokens| - 1 := Chars(tokens[|tokens| - 1].text + word)] else tokens + [Chars(word)]
  {
    if tokens != [] && tokens[|tokens| - 1].Chars? {
      r := tokens[|tokens| - 1 := Chars(tokens[|tokens| - 1].text + word)];
    } else {
      r := tokens + [Chars(word)];
    }
  }

  lemma JoinedNothing(before: seq<Piece>, rest: seq<Lexeme>, closed: bool)
    ensures Joined(before, Built([], rest, closed)) == Built(before, rest, closed)
  {
    if before != [] && before[|before| - 1].Chars? {
      assert before == before[..|before| - 1] + [before[|before| - 1]];
    }
  }

  /** The lexeme in hand, and those behind it. */
  ghost function Ahead(next: Option<Lexeme>, rest: seq<Lexeme>): seq<Lexeme> {
    if next.None? then [] else [next.value] + rest
  }

  lemma BlockEnds(before: seq<Piece>, next: Option<Lexeme>, rest: seq<Lexeme>, end: Token)
    requires next.None? ==> rest == []
    requires next.Some? ==> next.value == Symbol(end)
    ensures Joined(before, Build(Ahead(next, rest), end)) == Built(before, rest, next.Some?)
  {
    if next.Some? {
      BuildStep(next.value, rest, end);
    }
    JoinedNothing(before, rest, next.Some?);
  }

  class Parser {
    var data: string
    const operators: seq<string>

    constructor (text: string, table: seq<string>)
      ensures data == text && operators == table
    {
      data, operators := text, table;
    }

    method SkipBlanks()
      modifies this
      ensures data == SkipSpaces(old(data))
    {
      while data != "" && IsSpace(data[0])
        invariant SkipSpaces(data) == SkipSpaces(old(data))
        decreases |data|
      {
        data := data[1..];
      }
    }

    method FindOperator() returns (op: string)
      ensures op == FirstOperator(operators, data)
    {
      for i := 0 to |operators|
        invariant FirstOperator(operators[i..], data) == FirstOperator(operators, data)
      {
        assert operators[i..][1..] == operators[i + 1..];
        if operators[i] != "" && operators[i] <= data {
          return operators[i];
        }
      }
      op := "";
    }

    method WordEnd() returns (index: nat)
      ensures index == WordLength(data)
    {
      index := 0;
      while index < |data| && !StartsOperator(data[index]) && !IsSpace(data[index])
        invariant index <= |data| && WordLength(data) == index + WordLength(data[index..])
        decreases |data| - index
      {
        assert data[index..][1..] == data[index + 1..];
        index := index + 1;
      }
    }

    /** Takes the next lexeme off the text. */
    method Next() returns (lexeme: Option<Lexeme>)
      modifies this
      ensures lexeme.None? <==> old(data) == ""
      ensures lexeme.None? ==> data == ""
      ensures lexeme.Some? ==> Step(lexeme.value, data) == Lex(operators, old(data))
    {
      if data == "" {
        return None;
      }
      if IsSpace(data[0]) {
        SkipBlanks();
        return Some(Symbol(SPACE));
      }
      var index := WordEnd();
      if index > 0 {
        lexeme := Some(WordLexeme(data[..index]));
        data := data[index..];
        return;
      }
      var op := FindOperator();
      if op != "" {
        data := data[|op|..];
        return Some(OperatorLexeme(op));
      }
      lexeme := Some(Word(data[..1]));
      data := data[1..];
    }

    /** The same, told by all lexemes to come. */
    method Take() returns (lexeme: Option<Lexeme>)
      modifies this
      ensures |data| <= |old(data)| && (lexeme.Some? ==> |data| < |old(data)|)
      ensures lexeme.None? ==> Lexemes(operators, data) == []
      ensures Lexemes(operators, old(data)) == Ahead(lexeme, Lexemes(operators, data))
    {
      lexeme := Next();
    }

    /** Collects the pieces of a block up to its end. */
    method NextBlock(start: Token, end: Token, hasArgs: bool) returns (block: Block)
      modifies this
      ensures var built := Build(Lexemes(operators, old(data)), end);
              block == Block(start, end, hasArgs, built.pieces) && Lexemes(operators, data) == built.rest
      ensures |data| <= |old(data)|
      decreases |data|, 0
    {
      ghost var all := Build(Lexemes(operators, data), end);
      assert Joined([], all) == all;
      hide Build, Lexemes, Joined;
      var tokens: seq<Piece> := [];
      var next := Take();
      while next.Some? && next.value != Symbol(end)
        invariant |data| <= |old(data)| && (next.Some? ==> |data| < |old(data)|)
        invariant next.None? ==> Lexemes(operators, data) == []
        invariant Joined(tokens, Build(Ahead(next, Lexemes(operators, data)), end)) == all
        decreases if next.None? then 0 else 1, |data|
      {
        tokens := AddPiece(tokens, next.value, end);
        next := Take();
      }
      BlockEnds(tokens, next, Lexemes(operators, data), end);
      block := Block(start, end, hasArgs, tokens);
    }

    /** One more lexeme, with the whole block behind an opening bracket. */
    method AddPiece(tokens: seq<Piece>, lexeme: Lexeme, ghost end: Token) returns (r: seq<Piece>)
      requires lexeme != Symbol(end)
      modifies this
      ensures |data| <= |old(data)|
      ensures Joined(r, Build(Lexemes(operators, data), end)) ==
              Joined(tokens, Build([lexeme] + Lexemes(operators, old(data)), end))
      decreases |data|, 1
    {
      ghost var rest := Lexemes(operators, data);
      BuildStep(lexeme, rest, end);
      if lexeme.Word? {
        JoinedWord(tokens, lexeme.text, Build(rest, end));
        r := PushWord(tokens, lexeme.text);
      } else if Opens(lexeme.token) {
        var inner := NextBlock(lexeme.token, Closer(lexeme.token), TakesArguments(lexeme.token));
        JoinedPiece(tokens, Nested(inner), Build(Lexemes(operators, data), end));
        r := tokens + [Nested(inner)];
      } else {
        JoinedPiece(tokens, Plain(lexeme.token), Build(rest, end));
        r := tokens + [Plain(lexeme.token)];
      }
    }

    /** The whole name as one block. */
    method WholeBlock() returns (block: Block)
      modifies this
      ensures block == Block(NONE, NONE, false, Build(Lexemes(operators, old(data)), NONE).pieces)
    {
      block := NextBlock(NONE, NONE, false);
    }
  }

  lemma BuildStep(lexeme: Lexeme, rest: seq<Lexeme>, end: Token)
    ensures Build([lexeme] + rest, end) ==
            if lexeme.Word? then Build(rest, end).AfterWord(lexeme.text)
            else if lexeme.token == end then Built([], rest, true)
            else if Opens(lexeme.token) then
              var inner := Build(rest, Closer(lexeme.token));
              Build(inner.rest, end).After(Nested(BlockOf(lexeme.token, inner.pieces)))
            else Build(rest, end).After(Plain(lexeme.token))
  {
    assert ([lexeme] + rest)[1..] == rest;
  }
}
