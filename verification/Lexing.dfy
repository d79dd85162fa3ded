/**
 Cutting a C++ name into words, operators and blanks.
 */
module Lexing {
  import opened Terms

  predicate IsSpace(c: char) {
    c == ' ' || '\t' <= c <= '\r'
  }

  predicate StartsOperator(c: char) {
    c in ".<>:%-+*/^&|=!#{}[]();?~,"
  }

  predicate IsWordChar(c: char) {
    !IsSpace(c) && !StartsOperator(c)
  }

  const LONG_OPERATORS: seq<string> := ["...", "<=>", "<<=", ">>="]
  const DIGRAPHS: seq<string> := ["<:", ":>", "<%", "%>", "%:%:", "%:"]
  const ACCESSES: seq<string> := ["::", "->*", "->", ".*"]
  const ASSIGNMENTS: seq<string> := ["+=", "-=", "*=", "/=", "%=", "^=", "&=", "|="]
  const PAIRS: seq<string> := ["++", "--", "==", "!=", "<=", ">=", "&&", "||", "##"]
  const BRACKETS: seq<string> := ["<", ">", "{", "}", "[", "]", "#", "(", ")"]
  const SINGLES: seq<string> := ["=", ";", ":", "?", ".", "~", "!", "+", "-", "*", "/", "%", "^", "&", "|", ","]

  /** The operators in the order in which they are tried. */
  const OPERATORS: seq<string> := LONG_OPERATORS + DIGRAPHS + ACCESSES + ASSIGNMENTS + PAIRS + BRACKETS + SINGLES

  predicate NoSpaces(s: string) {
    forall i | 0 <= i < |s| :: !IsSpace(s[i])
  }

  /** No operator holds a blank, and every character that ends a word is an operator of its own. */
  predicate IsTable(operators: seq<string>) {
    && (forall op | op in operators :: op != "" && NoSpaces(op))
    && (forall c: char | StartsOperator(c) :: [c] in operators)
  }

  /** How a token is written in a name. */
  function Spelling(token: Token): string {
    match token
    case NONE => ""
    case SPACE => " "
    case COMMA => ","
    case COLON => ":"
    case HASH => "#"
    case SCOPE => "::"
    case PTR => "*"
    case REF => "&"
    case REF_REF => "&&"
    case CONST => "const"
    case VOLATILE => "volatile"
    case OPEN_ANGLE_BRACKET => "<"
    case CLOSE_ANGLE_BRACKET => ">"
    case OPEN_PAREN => "("
    case CLOSE_PAREN => ")"
    case OPEN_CURLY => "{"
    case CLOSE_CURLY => "}"
    case OPEN_BRACKET => "["
    case CLOSE_BRACKET => "]"
  }

  datatype Lexeme = Word(text: string) | Symbol(token: Token) {
    function Shown(): string {
      match this
      case Word(text) => text
      case Symbol(token) => Spelling(token)
    }
  }

  function OperatorLexeme(op: string): (r: Lexeme)
    ensures r.Shown() == op
  {
    if op == "(" then Symbol(OPEN_PAREN)
    else if op == ")" then Symbol(CLOSE_PAREN)
    else if op == "{" then Symbol(OPEN_CURLY)
    else if op == "}" then Symbol(CLOSE_CURLY)
    else if op == "[" then Symbol(OPEN_BRACKET)
    else if op == "]" then Symbol(CLOSE_BRACKET)
    else if op == "<" then Symbol(OPEN_ANGLE_BRACKET)
    else if op == ">" then Symbol(CLOSE_ANGLE_BRACKET)
    else if op == "," then Symbol(COMMA)
    else if op == "&" then Symbol(REF)
    else if op == "&&" then Symbol(REF_REF)
    else if op == "*" then Symbol(PTR)
    else if op == "::" then Symbol(SCOPE)
    else if op == ":" then Symbol(COLON)
    else if op == "#" then Symbol(HASH)
    else Word(op)
  }

  function WordLexeme(word: string): (r: Lexeme)
    ensures r.Shown() == word
  {
    if word == "const" then Symbol(CONST)
    else if word == "volatile" then Symbol(VOLATILE)
    else Word(word)
  }

  function SkipSpaces(s: string): (r: string)
    ensures |r| <= |s| && (r != "" ==> !IsSpace(r[0]))
  {
    if s == "" || !IsSpace(s[0]) then s else SkipSpaces(s[1..])
  }

  function WordLength(s: string): (n: nat)
    ensures n <= |s|
  {
    if s == "" || !IsWordChar(s[0]) then 0 else 1 + WordLength(s[1..])
  }

  /** The first operator of a table that a text starts with; nothing if there is none. */
  function FirstOperator(operators: seq<string>, s: string): (op: string)
    ensures op <= s && (op != "" ==> op in operators)
  {
    if operators == [] then ""
    else if operators[0] <= s && operators[0] != "" then operators[0]
    else FirstOperator(operators[1..], s)
  }

  datatype Step = Step(lexeme: Lexeme, rest: string)

  /** The next lexeme of a name, and what is left behind it. */
  function Lex(operators: seq<string>, s: string): (r: Step)
    requires s != ""
    ensures |r.rest| < |s|
  {
    if IsSpace(s[0]) then Step(Symbol(SPACE), SkipSpaces(s))
    else if WordLength(s) > 0 then Step(WordLexeme(s[..WordLength(s)]), s[WordLength(s)..])
    else
      var op := FirstOperator(operators, s);
      if op != "" then Step(OperatorLexeme(op), s[|op|..]) else Step(Word(s[..1]), s[1..])
  }

  /** All lexemes of a name. */
  function Lexemes(operators: seq<string>, s: string): seq<Lexeme>
    decreases |s|
  {
    if s == "" then [] else [Lex(operators, s).lexeme] + Lexemes(operators, Lex(operators, s).rest)
  }

  function ShownAll(lexemes: seq<Lexeme>): string {
    if lexemes == [] then "" else lexemes[0].Shown() + ShownAll(lexemes[1..])
  }

  /** The text with each run of blanks made one space. */
  function Collapsed(s: string): string {
    if s == "" then ""
    else if !IsSpace(s[0]) then [s[0]] + Collapsed(s[1..])
    else if |s| > 1 && IsSpace(s[1]) then Collapsed(s[1..])
    else " " + Collapsed(s[1..])
  }

  const BLANKS := " \t\n\U{0B}\U{0C}\r"

  /** The text without its blanks. */
  function Solid(s: string): string {
    if s == "" then "" else if s[0] in BLANKS then Solid(s[1..]) else [s[0]] + Solid(s[1..])
  }

  predicate IsGap(s: string, i: nat)
    requires i < |s|
  {
    s[i] == ' ' && (i + 1 < |s| ==> s[i + 1] !in BLANKS)
  }

  lemma SpaceIsBlank(c: char)
    ensures IsSpace(c) <==> c in BLANKS
  {
  }

  /** All other characters are kept, and the blanks that are left are single spaces. */
  lemma {:induction false} CollapsedMeans(s: string)
    ensures Solid(Collapsed(s)) == Solid(s)
    ensures forall i | 0 <= i < |Collapsed(s)| && Collapsed(s)[i] in BLANKS :: IsGap(Collapsed(s), i)
    ensures s != "" && s[0] !in BLANKS ==> Collapsed(s) != "" && Collapsed(s)[0] == s[0]
  {
    if s == "" {
    } else {
      var later := s[1..];
      CollapsedMeans(later);
      SpaceIsBlank(s[0]);
      hide IsSpace;
      if !IsSpace(s[0]) {
        FrontKept(s[0], Collapsed(later));
      } else if later == "" {
        assert Collapsed(s) == " " && Solid(" ") == "";
      } else {
        SpaceIsBlank(later[0]);
        FrontKept(' ', Collapsed(later));
      }
    }
  }

  lemma FrontKept(c: char, t: string)
    ensures Solid([c] + t) == if c in BLANKS then Solid(t) else [c] + Solid(t)
    ensures (forall i | 0 <= i < |t| && t[i] in BLANKS :: IsGap(t, i))
            && (c in BLANKS ==> c == ' ' && (t != "" ==> t[0] !in BLANKS))
            ==> forall i | 0 <= i < |[c] + t| && ([c] + t)[i] in BLANKS :: IsGap([c] + t, i)
  {
    var s := [c] + t;
    assert s[1..] == t;
    if (forall i | 0 <= i < |t| && t[i] in BLANKS :: IsGap(t, i)) {
      forall i | 0 < i < |s| && s[i] in BLANKS
        ensures IsGap(s, i)
      {
        assert s[i] == t[i - 1] && IsGap(t, i - 1);
      }
    }
  }

  // ---------------------------------------------------------------------------
  // No operator character is without an operator

  lemma SingleIsThere(c: char)
    requires StartsOperator(c)
    ensures [c] in BRACKETS || [c] in SINGLES
  {
  }

  lemma NoLongOneHasSpaces(op: string)
    requires op in LONG_OPERATORS || op in DIGRAPHS
    ensures op != "" && NoSpaces(op)
  {
  }

  lemma NoMiddleOneHasSpaces(op: string)
    requires op in ACCESSES || op in ASSIGNMENTS
    ensures op != "" && NoSpaces(op)
  {
  }

  lemma NoShortOneHasSpaces(op: string)
    requires op in PAIRS || op in BRACKETS || op in SINGLES
    ensures op != "" && NoSpaces(op)
  {
  }

  lemma NoOperatorHasSpaces(op: string)
    requires op in OPERATORS
    ensures op != "" && NoSpaces(op)
  {
    if op in LONG_OPERATORS || op in DIGRAPHS {
      NoLongOneHasSpaces(op);
    } else if op in ACCESSES || op in ASSIGNMENTS {
      NoMiddleOneHasSpaces(op);
    } else {
      assert op in PAIRS || op in BRACKETS || op in SINGLES;
      NoShortOneHasSpaces(op);
    }
  }

  // ---------------------------------------------------------------------------
  // The longest operator is taken, and words that are tokens are known as such

  /** The first operator that fits is the one in front of the others that fit. */
  lemma {:induction false} FirstFits(a: seq<string>, b: seq<string>, s: string)
    ensures FirstOperator(a + b, s) == if FirstOperator(a, s) != "" then FirstOperator(a, s) else FirstOperator(b, s)
    decreases a
  {
    if a == [] {
      assert a + b == b;
    } else {
      assert (a + b)[0] == a[0] && (a + b)[1..] == a[1..] + b;
      FirstFits(a[1..], b, s);
    }
  }

  lemma {:induction false} NoneFits(operators: seq<string>, s: string, op: string)
    requires FirstOperator(operators, s) == "" && op in operators && op != ""
    ensures !(op <= s)
    decreases operators
  {
    if op != operators[0] {
      assert operators == [operators[0]] + operators[1..];
      NoneFits(operators[1..], s, op);
    }
  }

  const OF_TWO: seq<string> := ACCESSES + ASSIGNMENTS + PAIRS

  const OF_ONE: seq<string> := BRACKETS + SINGLES

  lemma OperatorGroups()
    ensures OPERATORS == LONG_OPERATORS + (DIGRAPHS + (OF_TWO + OF_ONE))
  {
    hide LONG_OPERATORS, DIGRAPHS, ACCESSES, ASSIGNMENTS, PAIRS, BRACKETS, SINGLES;
  }

  lemma LengthsOfOnes(op: string)
    requires op in OF_ONE
    ensures |op| == 1
  {
    if op in BRACKETS {
    } else {
      assert op in SINGLES;
    }
  }

  lemma LengthsOfTwos(op: string)
    requires op in OF_TWO
    ensures |op| == 2 || op == "->*"
  {
    if op in ACCESSES {
    } else if op in ASSIGNMENTS {
    } else {
      assert op in PAIRS;
    }
  }

  lemma LengthsOfDigraphs(op: string)
    requires op in DIGRAPHS
    ensures |op| == 2 || op == "%:%:"
  {
  }

  lemma LengthsOfLong(op: string)
    requires op in LONG_OPERATORS
    ensures |op| == 3
  {
  }

  /** Among those of two characters the arrow with a star is tried before the arrow. */
  lemma ArrowStarFirst(s: string)
    requires "->*" <= s
    ensures FirstOperator(OF_TWO, s) == "->*"
  {
    FirstFits(ACCESSES + ASSIGNMENTS, PAIRS, s);
    FirstFits(ACCESSES, ASSIGNMENTS, s);
    assert s[0] == '-' && s[1] == '>' && s[2] == '*';
    assert !("::" <= s);
    assert ACCESSES[1..][0] == "->*";
    assert FirstOperator(ACCESSES, s) == FirstOperator(ACCESSES[1..], s) == "->*";
  }

  lemma FourFirst(s: string)
    requires "%:%:" <= s
    ensures FirstOperator(DIGRAPHS, s) == "%:%:"
  {
    assert s[0] == '%' && s[1] == ':';
    assert DIGRAPHS[1..][1..][1..][1..] == ["%:%:", "%:"];
    assert FirstOperator(DIGRAPHS, s) == FirstOperator(DIGRAPHS[1..], s) == FirstOperator(DIGRAPHS[1..][1..], s);
    assert FirstOperator(DIGRAPHS[1..][1..], s) == FirstOperator(DIGRAPHS[1..][1..][1..], s);
    assert FirstOperator(DIGRAPHS[1..][1..][1..], s) == FirstOperator(["%:%:", "%:"], s);
  }

  /** Of the operators that a text starts with the longest is taken. */
  lemma LongestTaken(s: string, op: string)
    requires op in OPERATORS && op <= s
    ensures |op| <= |FirstOperator(OPERATORS, s)|
  {
    OperatorGroups();
    NoOperatorHasSpaces(op);
    FirstFits(LONG_OPERATORS, DIGRAPHS + (OF_TWO + OF_ONE), s);
    FirstFits(DIGRAPHS, OF_TWO + OF_ONE, s);
    FirstFits(OF_TWO, OF_ONE, s);
    GroupOf(op);
    hide LONG_OPERATORS, DIGRAPHS, OF_TWO, OF_ONE, OPERATORS;
    if FirstOperator(LONG_OPERATORS, s) != "" {
      LengthsOfLong(FirstOperator(LONG_OPERATORS, s));
      LongIsLongest(s, op);
    } else if FirstOperator(DIGRAPHS, s) != "" {
      LengthsOfDigraphs(FirstOperator(DIGRAPHS, s));
      DigraphIsLongest(s, op);
    } else if FirstOperator(OF_TWO, s) != "" {
      LengthsOfTwos(FirstOperator(OF_TWO, s));
      TwoIsLongest(s, op);
    } else {
      OneIsLongest(s, op);
    }
  }

  lemma LongIsLongest(s: string, op: string)
    requires FirstOperator(LONG_OPERATORS, s) != "" && op <= s
    requires op in LONG_OPERATORS || op in DIGRAPHS || op in OF_TWO || op in OF_ONE
    ensures |op| <= 3
  {
    if op in LONG_OPERATORS {
      LengthsOfLong(op);
    } else if op in DIGRAPHS {
      LengthsOfDigraphs(op);
      LongStarts(FirstOperator(LONG_OPERATORS, s));
    } else if op in OF_TWO {
      LengthsOfTwos(op);
    } else {
      LengthsOfOnes(op);
    }
  }

  lemma LongStarts(op: string)
    requires op in LONG_OPERATORS
    ensures op != "" && op[0] != '%' && op[0] != '-'
  {
  }

  lemma DigraphStarts(op: string)
    requires op in DIGRAPHS
    ensures op != "" && op[0] != '-'
  {
  }

  lemma DigraphIsLongest(s: string, op: string)
    requires FirstOperator(LONG_OPERATORS, s) == "" && FirstOperator(DIGRAPHS, s) != "" && op <= s && op != ""
    requires op in LONG_OPERATORS || op in DIGRAPHS || op in OF_TWO || op in OF_ONE
    ensures |op| <= |FirstOperator(DIGRAPHS, s)|
  {
    LengthsOfDigraphs(FirstOperator(DIGRAPHS, s));
    if op in LONG_OPERATORS {
      NoneFits(LONG_OPERATORS, s, op);
    } else if op in DIGRAPHS {
      LengthsOfDigraphs(op);
      if op == "%:%:" {
        FourFirst(s);
      }
    } else if op in OF_TWO {
      LengthsOfTwos(op);
      DigraphStarts(FirstOperator(DIGRAPHS, s));
    } else {
      LengthsOfOnes(op);
    }
  }

  lemma TwoIsLongest(s: string, op: string)
    requires FirstOperator(LONG_OPERATORS, s) == "" && FirstOperator(DIGRAPHS, s) == ""
    requires FirstOperator(OF_TWO, s) != "" && op <= s && op != ""
    requires op in LONG_OPERATORS || op in DIGRAPHS || op in OF_TWO || op in OF_ONE
    ensures |op| <= |FirstOperator(OF_TWO, s)|
  {
    LengthsOfTwos(FirstOperator(OF_TWO, s));
    if op in LONG_OPERATORS {
      NoneFits(LONG_OPERATORS, s, op);
    } else if op in DIGRAPHS {
      NoneFits(DIGRAPHS, s, op);
    } else if op in OF_TWO {
      LengthsOfTwos(op);
      if op == "->*" {
        ArrowStarFirst(s);
      }
    } else {
      LengthsOfOnes(op);
    }
  }

  lemma OneIsLongest(s: string, op: string)
    requires FirstOperator(LONG_OPERATORS, s) == "" && FirstOperator(DIGRAPHS, s) == "" && FirstOperator(OF_TWO, s) == ""
    requires op <= s && op != "" && (op in LONG_OPERATORS || op in DIGRAPHS || op in OF_TWO || op in OF_ONE)
    ensures |op| == 1 && FirstOperator(OF_ONE, s) != "" && |FirstOperator(OF_ONE, s)| == 1
  {
    if op in LONG_OPERATORS {
      NoneFits(LONG_OPERATORS, s, op);
    } else if op in DIGRAPHS {
      NoneFits(DIGRAPHS, s, op);
    } else if op in OF_TWO {
      NoneFits(OF_TWO, s, op);
    } else {
      LengthsOfOnes(op);
      if FirstOperator(OF_ONE, s) == "" {
        NoneFits(OF_ONE, s, op);
      }
      LengthsOfOnes(FirstOperator(OF_ONE, s));
    }
  }

  lemma GroupOf(op: string)
    requires op in OPERATORS
    ensures op in LONG_OPERATORS || op in DIGRAPHS || op in OF_TWO || op in OF_ONE
  {
    OperatorGroups();
  }

  /** A word goes on as long as there are characters of words. */
  lemma {:induction false} WordsAreWhole(s: string)
    ensures var n := WordLength(s);
            (forall i | 0 <= i < n :: IsWordChar(s[i])) && (n < |s| ==> !IsWordChar(s[n]))
  {
    if s != "" && IsWordChar(s[0]) {
      WordsAreWhole(s[1..]);
      assert forall i | 1 <= i < |s| :: s[i] == s[1..][i - 1];
    }
  }

  /** No lexeme is a word that spells a token: those of `const`, `volatile` and of the brackets and other
      operators that are tokens are symbols. */
  lemma NoWordIsAToken(s: string, token: Token)
    requires s != "" && Lex(OPERATORS, s).lexeme.Word? && token != NONE
    ensures Lex(OPERATORS, s).lexeme.text != Spelling(token)
  {
    var n := WordLength(s);
    if n > 0 {
      WordsAreWhole(s);
      hide OPERATORS;
      assert s[..n][0] == s[0] && IsWordChar(s[0]);
      if token != CONST && token != VOLATILE {
        WordStarts(token);
      }
    } else {
      assert StartsOperator(s[0]);
      OperatorsAreATable();
      NeverFallsThrough(OPERATORS, s);
      hide OPERATORS, FirstOperator;
      OperatorWords(FirstOperator(OPERATORS, s), token);
    }
  }

  lemma OperatorWords(op: string, token: Token)
    requires op != "" && StartsOperator(op[0]) && OperatorLexeme(op).Word? && token != NONE
    ensures op != Spelling(token)
  {
    if token == SPACE || token == CONST || token == VOLATILE {
      NoOperatorStarts(token);
    } else {
      TokensAreRead(token);
      hide OperatorLexeme, Spelling;
    }
  }

  lemma NoOperatorStarts(token: Token)
    requires token == SPACE || token == CONST || token == VOLATILE
    ensures Spelling(token) != "" && !StartsOperator(Spelling(token)[0])
  {
  }

  /** The text of a token that is no word is read as that token. */
  lemma TokensAreRead(token: Token)
    requires token !in {NONE, SPACE, CONST, VOLATILE}
    ensures OperatorLexeme(Spelling(token)) == Symbol(token)
  {
  }

  lemma WordStarts(token: Token)
    requires token !in {NONE, CONST, VOLATILE}
    ensures Spelling(token) != "" && !IsWordChar(Spelling(token)[0])
  {
  }

  lemma OperatorsAreATable()
    ensures IsTable(OPERATORS)
  {
    forall op | op in OPERATORS
      ensures op != "" && NoSpaces(op)
    {
      NoOperatorHasSpaces(op);
    }
    forall c: char | StartsOperator(c)
      ensures [c] in OPERATORS
    {
      SingleIsThere(c);
    }
  }

  lemma {:induction false} FirstOperatorIsFound(operators: seq<string>, s: string, op: string)
    requires op in operators && op != "" && op <= s
    ensures FirstOperator(operators, s) != ""
  {
    if operators[0] != op {
      FirstOperatorIsFound(operators[1..], s, op);
    }
  }

  /** The search through the table always finds an operator. */
  lemma NeverFallsThrough(operators: seq<string>, s: string)
    requires IsTable(operators) && s != "" && StartsOperator(s[0])
    ensures FirstOperator(operators, s) != ""
  {
    FirstOperatorIsFound(operators, s, [s[0]]);
  }

  // ---------------------------------------------------------------------------
  // Nothing but blanks is lost

  lemma {:induction false} WordHasNoSpaces(s: string)
    ensures NoSpaces(s[..WordLength(s)])
  {
    if s != "" && IsWordChar(s[0]) {
      WordHasNoSpaces(s[1..]);
      assert s[..WordLength(s)][1..] == s[1..][..WordLength(s[1..])];
    }
  }

  lemma {:induction false} CollapsedPlain(a: string, rest: string)
    requires NoSpaces(a)
    ensures Collapsed(a + rest) == a + Collapsed(rest)
  {
    if a == "" {
      assert a + rest == rest && a + Collapsed(rest) == Collapsed(rest);
    } else {
      CollapsedPlain(a[1..], rest);
      assert (a + rest)[1..] == a[1..] + rest && (a + rest)[0] == a[0];
      assert [a[0]] + (a[1..] + Collapsed(rest)) == a + Collapsed(rest);
    }
  }

  lemma {:induction false} SpacesCollapse(s: string)
    requires s != "" && IsSpace(s[0])
    ensures Collapsed(s) == " " + Collapsed(SkipSpaces(s))
  {
    if |s| > 1 && IsSpace(s[1]) {
      SpacesCollapse(s[1..]);
    } else {
      assert SkipSpaces(s) == s[1..];
    }
  }

  lemma TakeOff(s: string, n: nat)
    requires n <= |s| && NoSpaces(s[..n])
    ensures Collapsed(s) == s[..n] + Collapsed(s[n..])
  {
    CollapsedPlain(s[..n], s[n..]);
    assert s == s[..n] + s[n..];
  }

  lemma TakeOffOperator(operators: seq<string>, s: string)
    requires IsTable(operators) && s != "" && StartsOperator(s[0])
    ensures var op := FirstOperator(operators, s);
            op != "" && Collapsed(s) == op + Collapsed(s[|op|..])
  {
    var op := FirstOperator(operators, s);
    NeverFallsThrough(operators, s);
    assert op == s[..|op|] && NoSpaces(op);
    TakeOff(s, |op|);
  }

  /** A lexeme is what is taken off the text. */
  lemma LexConserves(operators: seq<string>, s: string)
    requires IsTable(operators) && s != ""
    ensures Collapsed(s) == Lex(operators, s).lexeme.Shown() + Collapsed(Lex(operators, s).rest)
  {
    if IsSpace(s[0]) {
      SpacesCollapse(s);
    } else if WordLength(s) > 0 {
      WordHasNoSpaces(s);
      TakeOff(s, WordLength(s));
    } else {
      TakeOffOperator(operators, s);
    }
  }

  /** The lexemes of a name hold its text, with each run of blanks made one space. */
  lemma {:induction false} LexemesConserve(operators: seq<string>, s: string)
    requires IsTable(operators)
    ensures ShownAll(Lexemes(operators, s)) == Collapsed(s)
    decreases |s|
  {
    if s == "" {
    } else {
      var step := Lex(operators, s);
      LexConserves(operators, s);
      LexemesConserve(operators, step.rest);
      assert ([step.lexeme] + Lexemes(operators, step.rest))[1..] == Lexemes(operators, step.rest);
    }
  }
}
