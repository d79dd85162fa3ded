/**
 Comparing a file with the digest in a report: line ends may have been converted either way.
 */
module Newlines {
  import opened Sequences

  // ---------------------------------------------------------------------------
  // The conversions

  /** Each line feed without a carriage return in front gets one; `cr` says if one is right in front. */
  function ToCrlf(s: string, cr: bool): string {
    if s == "" then ""
    else if s[0] == '\n' && !cr then "\r\n" + ToCrlf(s[1..], false)
    else [s[0]] + ToCrlf(s[1..], s[0] == '\r')
  }

  predicate StartsCrlf(s: string) {
    |s| >= 2 && s[0] == '\r' && s[1] == '\n'
  }

  /** Each carriage return and line feed becomes a line feed. */
  function ToLf(s: string): string {
    if s == "" then ""
    else if StartsCrlf(s) then "\n" + ToLf(s[2..])
    else [s[0]] + ToLf(s[1..])
  }

  /** Lines all end in one carriage return and a line feed; `k` counts the carriage returns in front,
      two standing for any more. */
  predicate Consistent(s: string, k: nat) {
    if s == "" then true
    else if s[0] == '\n' then k == 1 && Consistent(s[1..], 0)
    else if s[0] == '\r' then Consistent(s[1..], if k == 0 then 1 else 2)
    else Consistent(s[1..], 0)
  }

  /** No line ends in a carriage return and a line feed. */
  predicate NoCrlf(s: string) {
    s == "" || (!StartsCrlf(s) && NoCrlf(s[1..]))
  }

  lemma Front(c: char, s: string, d: char, t: string)
    ensures [c] + s == [d] + t <==> c == d && s == t
  {
    if [c] + s == [d] + t {
      assert ([c] + s)[0] == c && ([d] + t)[0] == d;
      assert ([c] + s)[1..] == s && ([d] + t)[1..] == t;
    }
  }

  lemma CrlfFront(c: char, s: string, cr: bool)
    ensures ToCrlf([c] + s, cr) == if c == '\n' && !cr then "\r\n" + ToCrlf(s, false) else [c] + ToCrlf(s, c == '\r')
  {
    assert ([c] + s)[1..] == s;
  }

  lemma LfFront(c: char, s: string)
    requires !(c == '\r' && s != "" && s[0] == '\n')
    ensures ToLf([c] + s) == [c] + ToLf(s)
  {
    assert ([c] + s)[1..] == s;
  }

  lemma LfPair(s: string)
    ensures ToLf("\r\n" + s) == "\n" + ToLf(s)
  {
    assert ("\r\n" + s)[2..] == s;
  }

  /** Two or more carriage returns, and one, only differ in front of a line feed. */
  lemma OneOrMore(s: string)
    requires s == "" || s[0] != '\n'
    ensures Consistent(s, 1) <==> Consistent(s, 2)
  {
  }

  /** Converting to LF and back is exact for consistent files only. */
  lemma {:induction false} BackToCrlf(s: string, cr: bool)
    requires cr && s != "" ==> s[0] != '\n'
    ensures ToCrlf(ToLf(s), cr) == s <==> Consistent(s, if cr then 1 else 0)
    decreases |s|
  {
    if s == "" {
    } else {
      if StartsCrlf(s) {
        CrlfPairBack(s, cr);
      } else {
        var c, rest := s[0], s[1..];
        assert s == [c] + rest;
        LfFront(c, rest);
        CrlfFront(c, ToLf(rest), cr);
        if c == '\n' {
          assert "\r\n" + ToCrlf(ToLf(rest), false) != s;
        } else {
          BackToCrlf(rest, c == '\r');
          Front(c, ToCrlf(ToLf(rest), c == '\r'), c, rest);
          if c == '\r' && cr {
            OneOrMore(rest);
          }
        }
      }
    }
  }

  lemma CrlfPairBack(s: string, cr: bool)
    requires StartsCrlf(s)
    ensures ToCrlf(ToLf(s), cr) == s <==> Consistent(s, if cr then 1 else 0)
    decreases |s|, 0
  {
    var rest := s[2..];
    assert s == "\r\n" + rest;
    CrlfFront('\n', ToLf(rest), cr);
    if cr {
      assert ToCrlf(ToLf(s), cr)[0] == '\n';
    } else {
      BackToCrlf(rest, false);
      assert s[1..][1..] == rest;
      Front('\r', ['\n'] + ToCrlf(ToLf(rest), false), '\r', ['\n'] + rest);
      Front('\n', ToCrlf(ToLf(rest), false), '\n', rest);
      assert "\r\n" + ToCrlf(ToLf(rest), false) == ['\r'] + (['\n'] + ToCrlf(ToLf(rest), false));
      assert "\r\n" + rest == ['\r'] + (['\n'] + rest);
    }
  }

  /** Converting to CRLF and back is exact for files without CRLF only. */
  lemma {:induction false} BackToLf(s: string)
    ensures ToLf(ToCrlf(s, false)) == s <==> NoCrlf(s)
    decreases |s|
  {
    if s == "" {
    } else {
      var c, rest := s[0], s[1..];
      assert s == [c] + rest;
      CrlfFront(c, rest, false);
      BackToLf(rest);
      if c == '\n' {
        LfPair(ToCrlf(rest, false));
        Front(c, ToLf(ToCrlf(rest, false)), c, rest);
      } else if StartsCrlf(s) {
        CrlfPairLost(rest[1..]);
        assert s == "\r\n" + rest[1..];
      } else {
        AfterReturn(rest, c == '\r');
        LfFront(c, ToCrlf(rest, false));
        Front(c, ToLf(ToCrlf(rest, false)), c, rest);
      }
    }
  }

  lemma CrlfPairLost(rest: string)
    ensures ToLf(ToCrlf("\r\n" + rest, false)) != "\r\n" + rest
  {
    hide ToCrlf, ToLf;
    CrlfFront('\r', "\n" + rest, false);
    CrlfFront('\n', rest, true);
    LfPair(ToCrlf(rest, false));
    assert "\r\n" + rest == ['\r'] + ("\n" + rest);
    assert ['\r'] + ("\n" + ToCrlf(rest, false)) == "\r\n" + ToCrlf(rest, false);
    assert ("\n" + ToLf(ToCrlf(rest, false)))[0] == '\n' && ("\r\n" + rest)[0] == '\r';
  }

  lemma AfterReturn(s: string, cr: bool)
    requires cr && s != "" ==> s[0] != '\n'
    ensures ToCrlf(s, cr) == ToCrlf(s, false)
    ensures cr && ToCrlf(s, false) != "" ==> ToCrlf(s, false)[0] != '\n'
  {
  }

  // ---------------------------------------------------------------------------
  // Line by line

  /** Lines that each end in `end`, and what is behind the last one. */
  function TextOf(lines: seq<string>, end: string, last: string): string {
    if lines == [] then last else lines[0] + end + TextOf(lines[1..], end, last)
  }

  predicate NoEnds(s: string) {
    '\r' !in s && '\n' !in s
  }

  lemma {:induction false} PlainCrlf(s: string, rest: string)
    requires NoEnds(s)
    ensures ToCrlf(s + rest, false) == s + ToCrlf(rest, false)
  {
    if s == "" {
      assert s + rest == rest && s + ToCrlf(rest, false) == ToCrlf(rest, false);
    } else {
      Associative([s[0]], s[1..], rest);
      assert s[0] in s && NoEnds(s[1..]);
      hide ToCrlf, NoEnds;
      CrlfFront(s[0], s[1..] + rest, false);
      PlainCrlf(s[1..], rest);
      assert s == [s[0]] + s[1..];
      Associative([s[0]], s[1..], ToCrlf(rest, false));
    }
  }

  lemma {:induction false} PlainLf(s: string, rest: string)
    requires NoEnds(s)
    ensures ToLf(s + rest) == s + ToLf(rest)
  {
    if s == "" {
      assert s + rest == rest && s + ToLf(rest) == ToLf(rest);
    } else {
      Associative([s[0]], s[1..], rest);
      assert s[0] in s && NoEnds(s[1..]);
      hide ToLf, NoEnds;
      LfFront(s[0], s[1..] + rest);
      PlainLf(s[1..], rest);
      assert s == [s[0]] + s[1..];
      Associative([s[0]], s[1..], ToLf(rest));
    }
  }

  lemma LineBehind(line: string, end: string, lines: seq<string>, last: string)
    ensures TextOf([line] + lines, end, last) == line + (end + TextOf(lines, end, last))
  {
    assert ([line] + lines)[1..] == lines;
  }

  /** Both conversions only change how lines end. */
  lemma {:induction false} ConvertsLines(lines: seq<string>, last: string)
    requires (forall line | line in lines :: NoEnds(line)) && NoEnds(last)
    ensures ToCrlf(TextOf(lines, "\n", last), false) == TextOf(lines, "\r\n", last)
    ensures ToLf(TextOf(lines, "\r\n", last)) == TextOf(lines, "\n", last)
  {
    if lines == [] {
      PlainCrlf(last, "");
      PlainLf(last, "");
      assert last + "" == last;
    } else {
      var line, rest := lines[0], lines[1..];
      assert lines == [line] + rest && forall other | other in rest :: other in lines;
      ConvertsLines(rest, last);
      hide TextOf, ToCrlf, ToLf;
      LineBehind(line, "\n", rest, last);
      LineBehind(line, "\r\n", rest, last);
      var lf, crlf := TextOf(rest, "\n", last), TextOf(rest, "\r\n", last);
      PlainCrlf(line, "\n" + lf);
      CrlfFront('\n', lf, false);
      PlainLf(line, "\r\n" + crlf);
      LfPair(crlf);
    }
  }
}
