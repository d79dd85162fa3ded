/**
 Cutting the tokens of a whole file at its line ends and handing them out line by line
 (`break_token`, `break_lines`, `grammar_result::produce_lines`).
 */
module LineBreaking {
  import opened Sequences
  import opened SpanTree
  import opened Sorting

  /** A line terminator: the offset just behind it, and its size. */
  datatype Endline = Endline(offset: nat, size: nat) {
    function Stop(): int {
      offset - size
    }
  }

  // ---------------------------------------------------------------------------
  // Lines

  /** Terminators follow each other without overlap, inside the contents; `base` is where the
      first line starts. */
  predicate Terminated(base: nat, eols: seq<Endline>, total: nat)
    decreases eols
  {
    if eols == [] then base <= total
    else
      base <= eols[0].Stop() && eols[0].size >= 1 && Terminated(eols[0].offset, eols[1..], total)
  }

  /** The content of one line is the bytes from `lo` to `hi`. */
  predicate IsLine(base: nat, eols: seq<Endline>, total: nat, lo: nat, hi: nat)
    decreases eols
  {
    if eols == [] then lo == base && hi == total
    else (lo == base && hi == eols[0].Stop()) || IsLine(eols[0].offset, eols[1..], total, lo, hi)
  }

  /** No token starts or ends between the bytes of a terminator. */
  predicate Clear(tok: TokenT, eols: seq<Endline>) {
    forall i | 0 <= i < |eols| ::
      !(eols[i].Stop() < tok.start < eols[i].offset) && !(eols[i].Stop() < tok.stop < eols[i].offset)
  }

  lemma {:induction false} LineBounds(base: nat, eols: seq<Endline>, total: nat, lo: nat, hi: nat)
    requires Terminated(base, eols, total) && IsLine(base, eols, total, lo, hi)
    ensures base <= lo <= hi <= total
    decreases eols
  {
    TotalBound(base, eols, total);
    if eols != [] && !(lo == base && hi == eols[0].Stop()) {
      LineBounds(eols[0].offset, eols[1..], total, lo, hi);
    }
  }

  lemma {:induction false} TotalBound(base: nat, eols: seq<Endline>, total: nat)
    requires Terminated(base, eols, total)
    ensures base <= total && forall i | 0 <= i < |eols| :: base <= eols[i].Stop() < eols[i].offset <= total
    decreases eols
  {
    if eols == [] {
    } else {
      TotalBound(eols[0].offset, eols[1..], total);
      assert forall i | 1 <= i < |eols| :: eols[i] == eols[1..][i - 1];
    }
  }

  // ---------------------------------------------------------------------------
  // Breaking

  function Pieces(tok: TokenT, eols: seq<Endline>): seq<TokenT>
    requires forall i | 0 <= i < |eols| :: eols[i].size <= eols[i].offset
    decreases eols
  {
    if eols == [] || tok.stop <= eols[0].Stop() then [tok]
    else
      [TokenT(tok.start, eols[0].Stop(), tok.kind)]
      + Pieces(TokenT(eols[0].offset, tok.stop, tok.kind), eols[1..])
  }

  function Broken(tokens: seq<TokenT>, eols: seq<Endline>): seq<TokenT>
    requires forall i | 0 <= i < |eols| :: eols[i].size <= eols[i].offset
    decreases |tokens| + |eols|
  {
    if tokens == [] || eols == [] then tokens
    else if tokens[0].start < eols[0].offset then Pieces(tokens[0], eols) + Broken(tokens[1..], eols)
    else Broken(tokens, eols[1..])
  }

  method BreakToken(out: seq<TokenT>, token: TokenT, eols: seq<Endline>, from: nat) returns (r: seq<TokenT>)
    requires from <= |eols| && forall i | 0 <= i < |eols| :: eols[i].size <= eols[i].offset
    ensures r == out + Pieces(token, eols[from..])
  {
    r := out;
    var tok := token;
    var eol := from;
    while eol != |eols|
      invariant from <= eol <= |eols|
      invariant r + Pieces(tok, eols[eol..]) == out + Pieces(token, eols[from..])
      decreases |eols| - eol
    {
      var stop := eols[eol].offset - eols[eol].size;
      assert eols[eol..][1..] == eols[eol + 1..];
      if tok.stop <= stop {
        r := r + [tok];
        return;
      }
      r := r + [TokenT(tok.start, stop, tok.kind)];
      tok := TokenT(eols[eol].offset, tok.stop, tok.kind);
      eol := eol + 1;
    }
    r := r + [tok];
  }

  lemma BrokenStep(tokens: seq<TokenT>, eols: seq<Endline>, from: nat, eol: nat)
    requires from <= |tokens| && eol < |eols| && forall i | 0 <= i < |eols| :: eols[i].size <= eols[i].offset
    ensures Broken(tokens[from..], eols[eol..])
            == if from < |tokens| && tokens[from].start < eols[eol].offset
               then Pieces(tokens[from], eols[eol..]) + Broken(tokens[from + 1..], eols[eol..])
               else Broken(tokens[from..], eols[eol + 1..])
  {
    assert eols[eol..][1..] == eols[eol + 1..];
    if from < |tokens| {
      assert tokens[from..][1..] == tokens[from + 1..];
    }
  }

  method BreakLines(eols: seq<Endline>, tokens: seq<TokenT>) returns (out: seq<TokenT>)
    requires forall i | 0 <= i < |eols| :: eols[i].size <= eols[i].offset
    ensures out == Broken(tokens, eols)
  {
    hide Broken, Pieces;
    out := [];
    ghost var all := Broken(tokens, eols);
    var from := 0;
    var eol := 0;
    assert tokens[0..] == tokens && eols[0..] == eols;
    while eol != |eols|
      invariant 0 <= eol <= |eols| && 0 <= from <= |tokens|
      invariant out + Broken(tokens[from..], eols[eol..]) == all
      decreases |eols| - eol
    {
      while from != |tokens| && tokens[from].start < eols[eol].offset
        invariant 0 <= from <= |tokens|
        invariant out + Broken(tokens[from..], eols[eol..]) == all
        decreases |tokens| - from
      {
        BrokenStep(tokens, eols, from, eol);
        Associative(out, Pieces(tokens[from], eols[eol..]), Broken(tokens[from + 1..], eols[eol..]));
        out := BreakToken(out, tokens[from], eols, eol);
        from := from + 1;
      }
      BrokenStep(tokens, eols, from, eol);
      eol := eol + 1;
    }
    assert eols[eol..] == [];
    NothingToBreak(tokens[from..]);
    out := out + tokens[from..];
  }

  lemma NothingToBreak(tokens: seq<TokenT>)
    ensures Broken(tokens, []) == tokens
  {
  }

  // ---------------------------------------------------------------------------
  // Every token leaves exactly its part of each line

  /** The part of a token on the line from `lo` to `hi`. */
  function Clip(tok: TokenT, lo: nat, hi: nat): TokenT {
    TokenT(if tok.start < lo then lo else tok.start, if tok.stop > hi then hi else tok.stop, tok.kind)
  }

  function Clips(tokens: seq<TokenT>, lo: nat, hi: nat): seq<TokenT> {
    seq(|tokens|, i requires 0 <= i < |tokens| => Clip(tokens[i], lo, hi))
  }

  /** The chosen tokens that cover byte `y`. */
  ghost function At(y: int, chosen: nat -> bool): (p: TokenT -> bool)
    ensures forall tok :: p(tok) <==> tok.Covers(y) && chosen(tok.kind)
  {
    (tok: TokenT) => tok.Covers(y) && chosen(tok.kind)
  }

  lemma {:induction false} PiecesAt(tok: TokenT, base: nat, eols: seq<Endline>, total: nat, lo: nat, hi: nat, y: int, chosen: nat -> bool)
    requires Terminated(base, eols, total) && IsLine(base, eols, total, lo, hi) && lo <= y < hi
    requires base <= tok.start <= tok.stop <= total && Clear(tok, eols) && (eols != [] ==> tok.start < eols[0].offset)
    requires forall i | 0 <= i < |eols| :: eols[i].size <= eols[i].offset
    ensures Filter(At(y, chosen), Pieces(tok, eols)) == if At(y, chosen)(tok) then [Clip(tok, lo, hi)] else []
    decreases eols
  {
    var p := At(y, chosen);
    if eols == [] {
      FilterOne(p, tok);
    } else {
      var eol, rest := eols[0], eols[1..];
      LineSide(base, eols, total, lo, hi);
      if tok.stop <= eol.Stop() {
        FilterOne(p, tok);
      } else {
        var head, tail := TokenT(tok.start, eol.Stop(), tok.kind), TokenT(eol.offset, tok.stop, tok.kind);
        HeadAndTail(p, head, Pieces(tail, rest));
        TailClear(tok, eols, total);
        if lo >= eol.offset {
          PiecesAt(tail, eol.offset, rest, total, lo, hi, y, chosen);
          assert !p(head) && (p(tail) <==> p(tok)) && Clip(tail, lo, hi) == Clip(tok, lo, hi);
        } else {
          PiecesBehind(tail, eol.offset, rest, total, y, chosen);
          assert (p(head) <==> p(tok)) && (p(tok) ==> head == Clip(tok, lo, hi));
        }
      }
    }
  }

  /** A line is either the first one or behind the first terminator. */
  lemma LineSide(base: nat, eols: seq<Endline>, total: nat, lo: nat, hi: nat)
    requires eols != [] && Terminated(base, eols, total) && IsLine(base, eols, total, lo, hi)
    ensures (lo == base && hi == eols[0].Stop())
         || (eols[0].offset <= lo <= hi <= total && IsLine(eols[0].offset, eols[1..], total, lo, hi))
    ensures eols[0].Stop() < eols[0].offset <= total
  {
    TotalBound(base, eols, total);
    if !(lo == base && hi == eols[0].Stop()) {
      LineBounds(eols[0].offset, eols[1..], total, lo, hi);
    }
  }

  lemma HeadAndTail<T>(p: T -> bool, head: T, tail: seq<T>)
    ensures Filter(p, [head] + tail) == (if p(head) then [head] else []) + Filter(p, tail)
  {
    FilterOne(p, head);
    FilterConcat(p, [head], tail);
  }

  /** What a terminator leaves behind it is still clear of the later ones. */
  lemma TailClear(tok: TokenT, eols: seq<Endline>, total: nat)
    requires eols != [] && Terminated(eols[0].offset, eols[1..], total) && Clear(tok, eols)
    requires eols[0].Stop() < tok.stop && eols[0].Stop() < eols[0].offset
    ensures eols[0].offset <= tok.stop
    ensures Clear(TokenT(eols[0].offset, tok.stop, tok.kind), eols[1..])
    ensures eols[1..] != [] ==> eols[0].offset < eols[1].offset
  {
    TotalBound(eols[0].offset, eols[1..], total);
    forall i | 0 <= i < |eols[1..]|
      ensures eols[1..][i] == eols[i + 1]
    {
    }
  }

  /** Nothing in front of a token's start. */
  lemma {:induction false} PiecesBehind(tok: TokenT, base: nat, eols: seq<Endline>, total: nat, y: int, chosen: nat -> bool)
    requires Terminated(base, eols, total) && base <= tok.start && y < tok.start
    requires forall i | 0 <= i < |eols| :: eols[i].size <= eols[i].offset
    requires eols != [] ==> tok.start < eols[0].offset
    ensures Filter(At(y, chosen), Pieces(tok, eols)) == []
    decreases eols
  {
    var p := At(y, chosen);
    if eols == [] || tok.stop <= eols[0].Stop() {
      FilterOne(p, tok);
    } else {
      var head, tail := TokenT(tok.start, eols[0].Stop(), tok.kind), TokenT(eols[0].offset, tok.stop, tok.kind);
      FilterOne(p, head);
      FilterConcat(p, [head], Pieces(tail, eols[1..]));
      TotalBound(eols[0].offset, eols[1..], total);
      PiecesBehind(tail, eols[0].offset, eols[1..], total, y, chosen);
    }
  }
}
