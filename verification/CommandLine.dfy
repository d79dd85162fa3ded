/**
 The whole command line: which argument lists survive it, and how long it is predicted to be.
 */
module CommandLine {
  import opened Quoting

  // ---------------------------------------------------------------------------
  // Arguments without quotes

  /** Text without quotes is read up to its first blank, whatever follows it. */
  lemma {:induction false} ReadPlain(a: string, n: nat, rest: string)
    requires '"' !in a && Ended(rest)
    ensures var r := ReadArg(a, false, n);
            && ReadArg(a + rest, false, n) == Word(r.text, r.rest + rest)
            && '"' !in r.rest && Ended(r.rest)
    decreases a
  {
    if a == "" {
      assert a + rest == rest && "" + rest == rest;
    } else if IsBlank(a[0]) {
      assert (a + rest)[0] == a[0];
    } else {
      assert (a + rest)[0] == a[0] && (a + rest)[1..] == a[1..] + rest;
      assert '"' !in a[1..] && a[0] in a;
      ReadPlain(a[1..], if a[0] == '\\' then n + 1 else 0, rest);
    }
  }

  predicate Clean(s: string) {
    '"' !in s && ' ' !in s && '\t' !in s
  }

  lemma {:induction false} SlashesClean(n: nat)
    ensures Clean(Slashes(n))
  {
    if n == 0 {
    } else {
      SlashesClean(n - 1);
    }
  }

  /** What is read of it holds neither blanks nor quotes. */
  lemma {:induction false} PlainIsClean(a: string, n: nat)
    requires '"' !in a
    ensures Clean(ReadArg(a, false, n).text)
    ensures n > 0 || !Ended(a) ==> ReadArg(a, false, n).text != ""
    decreases a
  {
    SlashesClean(n);
    if !Ended(a) {
      assert '"' !in a[1..] && a[0] in a;
      PlainIsClean(a[1..], if a[0] == '\\' then n + 1 else 0);
    }
  }

  /** Clean text is one argument. */
  lemma {:induction false} ReadClean(a: string, n: nat)
    requires Clean(a)
    ensures ReadArg(a, false, n) == Word(Slashes(n) + a, "")
    decreases a
  {
    if a == "" {
      assert Slashes(n) + a == Slashes(n);
    } else {
      var c, later := a[0], a[1..];
      assert c in a && Clean(later) && a == [c] + later;
      Behind(Slashes(n), c, later, "");
      if c == '\\' {
        ReadClean(later, n + 1);
        SlashesSnoc(n);
      } else {
        ReadClean(later, 0);
        assert Slashes(0) + later == later;
      }
    }
  }

  // ---------------------------------------------------------------------------
  // What becomes of each argument

  /** What is read back for one argument: the argument if it was quoted, and its words otherwise. */
  function Pieces(arg: string): seq<string> {
    if NeedsQuotes(arg) then [arg] else ReadArgs(arg)
  }

  function AllPieces(args: seq<string>): seq<string> {
    if args == [] then [] else Pieces(args[0]) + AllPieces(args[1..])
  }

  /** The arguments behind the first one, and the blank that ends the line. */
  function Joined(args: seq<string>): string {
    if args == [] then " " else " " + Quoted(args[0]) + Joined(args[1..])
  }

  lemma {:induction false} PlainPieces(a: string, rest: string)
    requires '"' !in a && Ended(rest)
    ensures ReadArgs(a + rest) == ReadArgs(a) + ReadArgs(rest)
    decreases |a|
  {
    if a == "" {
      assert a + rest == rest;
    } else if IsBlank(a[0]) {
      assert '"' !in a[1..] && (a + rest)[0] == a[0] && (a + rest)[1..] == a[1..] + rest;
      PlainPieces(a[1..], rest);
    } else {
      var r := ReadArg(a, false, 0);
      ReadPlain(a, 0, rest);
      assert (a + rest)[0] == a[0];
      PlainPieces(r.rest, rest);
    }
  }

  lemma QuotedPieces(a: string, rest: string)
    requires NeedsQuotes(a) && Ended(rest)
    ensures ReadArgs(Quoted(a) + rest) == [a] + ReadArgs(rest)
  {
    QuotedReads(a, rest);
    hide ReadArg;
    assert (Quoted(a) + rest)[0] == '"';
  }

  lemma QuotedReads(a: string, rest: string)
    requires NeedsQuotes(a) && Ended(rest)
    ensures ReadArg(Quoted(a) + rest, false, 0) == Word(a, rest)
  {
    var tail := Escaped(a, 0) + rest;
    assert Quoted(a) + rest == "\"" + tail;
    assert Slashes(0) + (Slashes(0) + a) == a;
    hide ReadArg, Escaped, Quoted;
    ReadQuote(tail, false, 0);
    ReadsEscaped(a, 0, rest);
  }

  lemma ArgReads(a: string, rest: string)
    requires Ended(rest)
    ensures ReadArgs(Quoted(a) + rest) == Pieces(a) + ReadArgs(rest)
  {
    if NeedsQuotes(a) {
      QuotedPieces(a, rest);
    } else {
      PlainPieces(a, rest);
    }
  }

  lemma SkipBlank(s: string)
    ensures ReadArgs(" " + s) == ReadArgs(s)
  {
    assert (" " + s)[1..] == s;
  }

  lemma {:induction false} JoinedReads(args: seq<string>)
    ensures ReadArgs(Joined(args)) == AllPieces(args) && Ended(Joined(args))
    decreases |args|
  {
    if args == [] {
      SkipBlank("");
      assert " " + "" == " ";
    } else {
      var a, rest := args[0], Joined(args[1..]);
      JoinedReads(args[1..]);
      SkipBlank(Quoted(a) + rest);
      assert Joined(args) == " " + (Quoted(a) + rest);
      ArgReads(a, rest);
    }
  }

  /** The arguments that come through: an empty one is not quoted and lost, and a tab is only
      protected where a space or a quote made the argument quoted. */
  predicate Survives(arg: string) {
    arg != "" && ('\t' in arg ==> NeedsQuotes(arg))
  }

  lemma SurvivorIsOnePiece(a: string)
    requires Survives(a)
    ensures Pieces(a) == [a]
  {
    if !NeedsQuotes(a) {
      assert a[0] in a && Clean(a);
      ReadClean(a, 0);
      assert Slashes(0) + a == a && ReadArgs("") == [];
    }
  }

  lemma {:induction false} PiecesSurvive(a: string)
    requires '"' !in a
    ensures forall w | w in ReadArgs(a) :: Survives(w)
    decreases |a|
  {
    if a == "" {
    } else {
      if IsBlank(a[0]) {
        assert '"' !in a[1..];
        PiecesSurvive(a[1..]);
      } else {
        PlainIsClean(a, 0);
        ReadPlain(a, 0, "");
        PiecesSurvive(ReadArg(a, false, 0).rest);
      }
    }
  }

  lemma {:induction false} AllPiecesSurvive(args: seq<string>)
    ensures forall w | w in AllPieces(args) :: Survives(w)
  {
    if args == [] {
    } else {
      AllPiecesSurvive(args[1..]);
      if !NeedsQuotes(args[0]) {
        PiecesSurvive(args[0]);
      }
    }
  }

  lemma {:induction false} SurvivorsComeThrough(args: seq<string>)
    requires forall a | a in args :: Survives(a)
    ensures AllPieces(args) == args
  {
    if args == [] {
    } else {
      SurvivorIsOnePiece(args[0]);
      SurvivorsComeThrough(args[1..]);
    }
  }

  /** An argument list is read back unchanged exactly if each argument survives. */
  lemma RoundTrip(args: seq<string>)
    ensures ReadArgs(Joined(args)) == args <==> forall a | a in args :: Survives(a)
  {
    JoinedReads(args);
    if forall a | a in args :: Survives(a) {
      SurvivorsComeThrough(args);
    }
    AllPiecesSurvive(args);
  }

  // ---------------------------------------------------------------------------
  // The program

  /** The first argument follows rules of its own: backslashes mean nothing, and it ends at the next
      quote or, without quotes, at the first blank. */
  function ReadFirst(s: string): Word {
    if s != "" && s[0] == '"' then UpTo(s[1..], true) else UpTo(s, false)
  }

  function UpTo(s: string, quoted: bool): Word {
    if s == "" then Word("", "")
    else if quoted && s[0] == '"' then Word("", s[1..])
    else if !quoted && IsBlank(s[0]) then Word("", s)
    else UpTo(s[1..], quoted).After([s[0]])
  }

  /** The backslashes at the end of a text that follows `n` more. */
  function Trailing(s: string, n: nat): nat {
    if s == "" then n else Trailing(s[1..], if s[0] == '\\' then n + 1 else 0)
  }

  lemma {:induction false} UpToBlank(s: string, rest: string)
    requires Clean(s) && Ended(rest)
    ensures UpTo(s + rest, false) == Word(s, rest)
  {
    if s == "" {
      assert s + rest == rest;
    } else {
      assert s[0] in s && Clean(s[1..]) && (s + rest)[1..] == s[1..] + rest && (s + rest)[0] == s[0];
      UpToBlank(s[1..], rest);
      assert [s[0]] + s[1..] == s;
    }
  }

  lemma {:induction false} UpToQuote(s: string, rest: string)
    requires '"' !in s
    ensures UpTo(s + "\"" + rest, true) == Word(s, rest)
  {
    var t := s + "\"" + rest;
    if s == "" {
      assert t[1..] == rest;
    } else {
      assert s[0] in s && '"' !in s[1..] && t[1..] == s[1..] + "\"" + rest && t[0] == s[0];
      UpToQuote(s[1..], rest);
      assert [s[0]] + s[1..] == s;
    }
  }

  /** Without quotes inside, quoting only doubles the backslashes at the end. */
  lemma {:induction false} EscapedPlain(s: string, n: nat)
    requires '"' !in s
    ensures Escaped(s, n) == s + Slashes(Trailing(s, n)) + "\""
    decreases s
  {
    if s == "" {
      assert "" + Slashes(n) + "\"" == Slashes(n) + "\"";
    } else {
      var later := s[1..];
      var n' := if s[0] == '\\' then n + 1 else 0;
      assert s[0] in s && '"' !in later;
      EscapedPlain(later, n');
      assert [s[0]] + (later + Slashes(Trailing(later, n')) + "\"") == s + Slashes(Trailing(later, n')) + "\"";
    }
  }

  lemma FirstInQuotes(text: string, rest: string)
    requires '"' !in text
    ensures ReadFirst("\"" + text + "\"" + rest) == Word(text, rest)
  {
    var s := "\"" + text + "\"" + rest;
    assert s[0] == '"' && s[1..] == text + "\"" + rest;
    UpToQuote(text, rest);
  }

  lemma QuotedProgram(program: string, rest: string)
    requires '"' !in program && ' ' in program
    ensures ReadFirst(Quoted(program) + rest) == Word(program + Slashes(Trailing(program, 0)), rest)
  {
    var slashes := Slashes(Trailing(program, 0));
    QuotedText(program, slashes);
    SlashesClean(Trailing(program, 0));
    FirstInQuotes(program + slashes, rest);
  }

  lemma QuotedText(program: string, slashes: string)
    requires '"' !in program && ' ' in program && slashes == Slashes(Trailing(program, 0))
    ensures Quoted(program) == "\"" + (program + slashes) + "\""
  {
    EscapedPlain(program, 0);
    assert "\"" + (program + slashes + "\"") == "\"" + (program + slashes) + "\"";
  }

  lemma PlainProgram(program: string, rest: string)
    requires Clean(program) && Ended(rest)
    ensures ReadFirst(Quoted(program) + rest) == Word(program, rest)
  {
    UpToBlank(program, rest);
    if program != "" {
      assert program[0] in program && (program + rest)[0] == program[0];
    } else {
      assert program + rest == rest;
    }
  }

  /** A program is found again behind the quoting, except that backslashes at the end of one with
      spaces are doubled; and the other arguments start right behind it. */
  lemma ProgramReads(program: string, args: seq<string>)
    requires '"' !in program && ('\t' in program ==> ' ' in program)
    ensures ReadFirst(Quoted(program) + Joined(args)) ==
            Word(if ' ' in program then program + Slashes(Trailing(program, 0)) else program, Joined(args))
  {
    JoinedReads(args);
    if ' ' in program {
      QuotedProgram(program, Joined(args));
    } else {
      PlainProgram(program, Joined(args));
    }
  }

  /** The programs that are read back: no quote, no backslash at the end of one with spaces, and no
      tab without a space. */
  predicate ProgramSurvives(program: string) {
    '"' !in program && if ' ' in program then program[|program| - 1] != '\\' else '\t' !in program
  }

  lemma {:induction false} TrailingLast(s: string, n: nat)
    requires s != ""
    ensures Trailing(s, n) == 0 <==> s[|s| - 1] != '\\'
  {
    if s[1..] == "" {
      assert |s| == 1;
    } else {
      TrailingLast(s[1..], if s[0] == '\\' then n + 1 else 0);
      assert s[1..][|s[1..]| - 1] == s[|s| - 1];
    }
  }

  lemma {:induction false} UpToStops(s: string, quoted: bool)
    ensures quoted ==> '"' !in UpTo(s, true).text
    ensures !quoted ==> '\t' !in UpTo(s, false).text
  {
    if s == "" {
    } else {
      UpToStops(s[1..], quoted);
    }
  }

  /** Exactly those are read back, with the arguments right behind. */
  lemma ProgramReadsIff(program: string, args: seq<string>)
    ensures var w := ReadFirst(Quoted(program) + Joined(args));
            (w.text == program <==> ProgramSurvives(program)) && (ProgramSurvives(program) ==> w.rest == Joined(args))
  {
    var line := Quoted(program) + Joined(args);
    if '"' in program {
      assert line[0] == '"';
      UpToStops(line[1..], true);
    } else if ' ' in program {
      ProgramReads(program, args);
      TrailingLast(program, 0);
      var n := Trailing(program, 0);
      assert n == 0 ==> program + Slashes(n) == program;
      assert n > 0 ==> |program + Slashes(n)| > |program|;
    } else if '\t' in program {
      assert program[0] in program && line[0] == program[0];
      UpToStops(line, false);
    } else {
      ProgramReads(program, args);
    }
  }

  /** The whole line, as the started program takes it apart. */
  function ReadLine(line: string): seq<string> {
    var first := ReadFirst(line);
    [first.text] + ReadArgs(first.rest)
  }

  /** A program and its arguments are read back exactly if the program and each argument survive. */
  lemma LineReads(program: string, args: seq<string>)
    ensures ReadLine(Quoted(program) + Joined(args)) == [program] + args
            <==> ProgramSurvives(program) && forall a | a in args :: Survives(a)
  {
    var w := ReadFirst(Quoted(program) + Joined(args));
    ProgramReadsIff(program, args);
    RoundTrip(args);
    HeadAndTail(w.text, ReadArgs(w.rest), program, args);
  }

  lemma HeadAndTail(a: string, s: seq<string>, b: string, t: seq<string>)
    ensures [a] + s == [b] + t <==> a == b && s == t
  {
    if [a] + s == [b] + t {
      assert ([a] + s)[0] == ([b] + t)[0] && ([a] + s)[1..] == ([b] + t)[1..];
    }
  }

  lemma JoinedStep(line: string, args: seq<string>, i: nat)
    requires i < |args|
    ensures line + Joined(args[i..]) == line + [' '] + Quoted(args[i]) + Joined(args[i + 1..])
  {
    assert args[i..][1..] == args[i + 1..];
    Unbracketed(line, Quoted(args[i]), Joined(args[i + 1..]));
  }

  lemma Unbracketed(line: string, arg: string, later: string)
    ensures line + (" " + arg + later) == line + [' '] + arg + later
  {
  }

  /** Behind the program, each argument has one space in front of it, and the line ends in a space. */
  lemma {:induction false} JoinedEnds(args: seq<string>)
    ensures Joined(args) != "" && Joined(args)[0] == ' ' && Joined(args)[|Joined(args)| - 1] == ' '
    ensures |Joined(args)| == 1 + TotalLength(args) + |args|
  {
    if args == [] {
    } else {
      JoinedEnds(args[1..]);
    }
  }

  function TotalLength(args: seq<string>): nat {
    if args == [] then 0 else |Quoted(args[0])| + TotalLength(args[1..])
  }

  method AppendArgs(line: string, args: seq<string>) returns (r: string)
    ensures r == line + Joined(args)
  {
    r := line;
    ghost var all := line + Joined(args);
    assert args[0..] == args;
    for i := 0 to |args|
      invariant r + Joined(args[i..]) == all
    {
      JoinedStep(r, args, i);
      r := r + [' '];
      r := AppendArg(r, args[i]);
    }
    r := r + [' '];
  }

  lemma ScriptFirst(engine: string, script: string, args: seq<string>)
    ensures Quoted(engine) + [' '] + Quoted(script) + Joined(args) == Quoted(engine) + Joined([script] + args)
  {
    assert ([script] + args)[1..] == args;
    Unbracketed(Quoted(engine), Quoted(script), Joined(args));
  }

  /** With a script engine, the script is the first argument.  The line is read back as it was meant
      exactly if what is started and each argument survive. */
  method CommandLine(program: string, engine: string, script: string, args: seq<string>) returns (line: string)
    ensures var started, arguments := if engine == "" then program else engine, if engine == "" then args else [script] + args;
            ReadLine(line) == [started] + arguments
            <==> ProgramSurvives(started) && forall a | a in arguments :: Survives(a)
    ensures line == if engine == "" then Quoted(program) + Joined(args) else Quoted(engine) + Joined([script] + args)
    ensures line != "" && line[|line| - 1] == ' '
  {
    line := "";
    ghost var started, arguments := if engine == "" then program else engine, if engine == "" then args else [script] + args;
    if engine == "" {
      line := AppendArg(line, program);
      assert "" + Quoted(program) == Quoted(program);
    } else {
      line := AppendArg(line, engine);
      assert "" + Quoted(engine) == Quoted(engine);
      line := line + [' '];
      line := AppendArg(line, script);
      ScriptFirst(engine, script, args);
    }
    hide Joined, Quoted, ReadLine, ProgramSurvives, Survives;
    line := AppendArgs(line, args);
    assert line == Quoted(started) + Joined(arguments);
    LineReads(started, arguments);
    LineEnds(started, arguments);
  }

  lemma LineEnds(started: string, arguments: seq<string>)
    ensures var line := Quoted(started) + Joined(arguments); line != "" && line[|line| - 1] == ' '
  {
    JoinedEnds(arguments);
  }
}
