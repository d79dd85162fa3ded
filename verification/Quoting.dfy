/**
 Command lines for Windows: arguments are quoted so that the rules of CommandLineToArgvW read them
 back unchanged.
 */
module Quoting {
  predicate IsBlank(c: char) {
    c == ' ' || c == '\t'
  }

  function Slashes(n: nat): string {
    if n == 0 then "" else "\\" + Slashes(n - 1)
  }

  lemma {:induction false} SlashesSnoc(n: nat)
    ensures Slashes(n) + "\\" == Slashes(n + 1)
  {
    if n == 0 {
    } else {
      SlashesSnoc(n - 1);
    }
  }

  // ---------------------------------------------------------------------------
  // Quoting

  predicate NeedsQuotes(arg: string) {
    '"' in arg || ' ' in arg
  }

  /** The rest of a quoted argument, behind `n` backslashes, with the closing quote. */
  function Escaped(s: string, n: nat): string
    decreases s
  {
    if s == "" then Slashes(n) + "\""
    else if s[0] == '\\' then "\\" + Escaped(s[1..], n + 1)
    else if s[0] == '"' then Slashes(n) + "\\\"" + Escaped(s[1..], 0)
    else [s[0]] + Escaped(s[1..], 0)
  }

  function Quoted(arg: string): string {
    if NeedsQuotes(arg) then "\"" + Escaped(arg, 0) else arg
  }

  method AppendSlashes(ws: string, count: nat) returns (r: string)
    ensures r == ws + Slashes(count)
  {
    r := ws;
    for i := 0 to count
      invariant r == ws + Slashes(i)
    {
      SlashesSnoc(i);
      r := r + ['\\'];
    }
  }

  /** One more character of the argument. */
  lemma EscapedStep(r: string, next: string, i: nat, n: nat)
    requires i < |next|
    ensures r + Escaped(next[i..], n) ==
            if next[i] == '\\' then r + [next[i]] + Escaped(next[i + 1..], n + 1)
            else if next[i] == '"' then (if n == 0 then r else r + Slashes(n)) + ['\\'] + [next[i]] + Escaped(next[i + 1..], 0)
            else r + [next[i]] + Escaped(next[i + 1..], 0)
  {
    assert next[i..][1..] == next[i + 1..];
    if next[i] == '\\' {
      assert r + ("\\" + Escaped(next[i + 1..], n + 1)) == r + [next[i]] + Escaped(next[i + 1..], n + 1);
    } else if next[i] == '"' {
      assert r + (Slashes(n) + "\\\"" + Escaped(next[i + 1..], 0))
          == r + Slashes(n) + ['\\'] + [next[i]] + Escaped(next[i + 1..], 0);
    } else {
      assert r + ([next[i]] + Escaped(next[i + 1..], 0)) == r + [next[i]] + Escaped(next[i + 1..], 0);
    }
  }

  lemma EscapedEnd(r: string, n: nat)
    ensures r + Escaped("", n) == if n == 0 then r + ['"'] else r + Slashes(n) + ['"']
  {
  }

  method AppendArg(ws: string, next: string) returns (r: string)
    ensures r == ws + Quoted(next)
  {
    if '"' !in next && ' ' !in next {
      return ws + next;
    }
    r := AppendEscaped(ws + ['"'], next);
    assert ws + ['"'] + Escaped(next, 0) == ws + ("\"" + Escaped(next, 0));
  }

  /** The characters of a quoted argument and the closing quote. */
  method AppendEscaped(ws: string, next: string) returns (r: string)
    ensures r == ws + Escaped(next, 0)
  {
    r := ws;
    ghost var all := ws + Escaped(next, 0);
    var inSlashes := false;
    var slashes := 0;
    assert next[0..] == next;
    hide Escaped, Slashes;
    for i := 0 to |next|
      invariant r + Escaped(next[i..], if inSlashes then slashes else 0) == all && (inSlashes ==> slashes > 0)
    {
      EscapedStep(r, next, i, if inSlashes then slashes else 0);
      var c := next[i];
      if c == '\\' {
        if !inSlashes {
          slashes := 0;
        }
        inSlashes := true;
        slashes := slashes + 1;
      } else if c == '"' {
        if inSlashes {
          r := AppendSlashes(r, slashes);
        }
        r := r + ['\\'];
        inSlashes := false;
      } else {
        inSlashes := false;
      }
      r := r + [c];
    }
    assert next[|next|..] == "";
    EscapedEnd(r, if inSlashes then slashes else 0);
    if inSlashes {
      r := AppendSlashes(r, slashes);
    }
    r := r + ['"'];
  }

  // ---------------------------------------------------------------------------
  // Reading a command line

  datatype Word = Word(text: string, rest: string) {
    function After(front: string): Word {
      Word(front + text, rest)
    }
  }

  /** One argument, behind `n` backslashes. In front of a quote an even number of backslashes is
      halved, and the quote toggles quoting; an odd number is halved, and the quote is taken as it is. */
  function ReadArg(s: string, quoted: bool, n: nat): (r: Word)
    ensures |r.rest| <= |s| && (s != "" && !IsBlank(s[0]) ==> |r.rest| < |s|)
    decreases |s|
  {
    if s == "" || (!quoted && IsBlank(s[0])) then Word(Slashes(n), s)
    else if s[0] == '\\' then ReadArg(s[1..], quoted, n + 1)
    else if s[0] == '"' then
      if n % 2 == 0 then ReadArg(s[1..], !quoted, 0).After(Slashes(n / 2))
      else ReadArg(s[1..], quoted, 0).After(Slashes(n / 2) + "\"")
    else ReadArg(s[1..], quoted, 0).After(Slashes(n) + [s[0]])
  }

  /** All arguments behind the first. */
  function ReadArgs(s: string): seq<string>
    decreases |s|
  {
    if s == "" then []
    else if IsBlank(s[0]) then ReadArgs(s[1..])
    else
      var r := ReadArg(s, false, 0);
      [r.text] + ReadArgs(r.rest)
  }

  predicate Ended(rest: string) {
    rest == "" || IsBlank(rest[0])
  }

  lemma ReadSlash(s: string, quoted: bool, n: nat)
    ensures ReadArg("\\" + s, quoted, n) == ReadArg(s, quoted, n + 1)
  {
    assert ("\\" + s)[1..] == s;
  }

  lemma {:induction false} ReadSlashes(count: nat, s: string, quoted: bool, n: nat)
    ensures ReadArg(Slashes(count) + s, quoted, n) == ReadArg(s, quoted, n + count)
  {
    if count == 0 {
      assert Slashes(0) + s == s;
    } else {
      assert Slashes(count) + s == "\\" + (Slashes(count - 1) + s);
      ReadSlash(Slashes(count - 1) + s, quoted, n);
      hide ReadArg, Slashes;
      ReadSlashes(count - 1, s, quoted, n + 1);
    }
  }

  lemma ReadChar(c: char, s: string, quoted: bool, n: nat)
    requires c != '\\' && c != '"' && (quoted || !IsBlank(c))
    ensures ReadArg([c] + s, quoted, n) == ReadArg(s, quoted, 0).After(Slashes(n) + [c])
  {
    assert ([c] + s)[1..] == s;
  }

  lemma ReadQuote(s: string, quoted: bool, n: nat)
    ensures ReadArg("\"" + s, quoted, 2 * n) == ReadArg(s, !quoted, 0).After(Slashes(n))
    ensures ReadArg("\"" + s, quoted, 2 * n + 1) == ReadArg(s, quoted, 0).After(Slashes(n) + "\"")
  {
    assert ("\"" + s)[1..] == s;
  }

  lemma ReadClosing(n: nat, rest: string)
    requires Ended(rest)
    ensures ReadArg(Slashes(n) + "\"" + rest, true, n) == Word(Slashes(n), rest)
  {
    assert Slashes(n) + "\"" + rest == Slashes(n) + ("\"" + rest);
    ReadSlashes(n, "\"" + rest, true, n);
    ReadQuote(rest, true, n);
    assert Slashes(n) + "" == Slashes(n);
  }

  lemma ReadEscapedQuote(n: nat, tail: string)
    ensures ReadArg(Slashes(n) + "\\\"" + tail, true, n) == ReadArg(tail, true, 0).After(Slashes(n) + "\"")
  {
    assert Slashes(n) + "\\\"" + tail == Slashes(n) + ("\\" + ("\"" + tail));
    ReadSlashes(n, "\\" + ("\"" + tail), true, n);
    assert ("\\" + ("\"" + tail))[1..] == "\"" + tail;
    ReadQuote(tail, true, n);
  }

  lemma Behind(front: string, c: char, s: string, tail: string)
    ensures (front + [c]) + s == front + ([c] + s) && ([c] + s) + tail == [c] + (s + tail)
  {
  }

  predicate ReadsBack(s: string, n: nat, rest: string) {
    ReadArg(Escaped(s, n) + rest, true, n) == Word(Slashes(n) + s, rest)
  }

  lemma ReadsBackSlash(later: string, n: nat, rest: string)
    requires ReadsBack(later, n + 1, rest)
    ensures ReadsBack(['\\'] + later, n, rest)
  {
    var s, tail := ['\\'] + later, Escaped(later, n + 1) + rest;
    assert s[1..] == later;
    Behind("", '\\', Escaped(later, n + 1), rest);
    Behind(Slashes(n), '\\', later, rest);
    assert Escaped(s, n) + rest == ['\\'] + tail && (['\\'] + tail)[1..] == tail;
    SlashesSnoc(n);
  }

  lemma ReadsBackQuote(later: string, n: nat, rest: string)
    requires ReadsBack(later, 0, rest)
    ensures ReadsBack(['"'] + later, n, rest)
  {
    var s, tail := ['"'] + later, Escaped(later, 0) + rest;
    assert s[1..] == later;
    Behind(Slashes(n), '"', later, rest);
    assert Escaped(s, n) + rest == Slashes(n) + "\\\"" + tail;
    ReadEscapedQuote(n, tail);
    assert Slashes(0) + later == later;
  }

  lemma ReadsBackOther(c: char, later: string, n: nat, rest: string)
    requires c != '"' && c != '\\' && ReadsBack(later, 0, rest)
    ensures ReadsBack([c] + later, n, rest)
  {
    var s, tail := [c] + later, Escaped(later, 0) + rest;
    assert s[1..] == later;
    Behind(Slashes(n), c, later, rest);
    Behind("", c, Escaped(later, 0), rest);
    assert Escaped(s, n) + rest == [c] + tail;
    ReadChar(c, tail, true, n);
    assert Slashes(0) + later == later;
  }

  /** What is quoted is read back. */
  lemma {:induction false} ReadsEscaped(s: string, n: nat, rest: string)
    requires Ended(rest)
    ensures ReadsBack(s, n, rest)
    decreases s
  {
    if s == "" {
      ReadClosing(n, rest);
      assert Slashes(n) + s == Slashes(n);
    } else {
      var c, later := s[0], s[1..];
      assert s == [c] + later;
      if c == '\\' {
        ReadsEscaped(later, n + 1, rest);
        ReadsBackSlash(later, n, rest);
      } else {
        ReadsEscaped(later, 0, rest);
        if c == '"' {
          ReadsBackQuote(later, n, rest);
        } else {
          ReadsBackOther(c, later, n, rest);
        }
      }
    }
  }
}
