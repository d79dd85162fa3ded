/**
 Handing the broken tokens out line by line: no piece is lost, every piece fits its line, and a
 byte of a line is covered in its line exactly as it was covered in the whole file.
 */
module LineTokens {
  import opened SpanTree
  import opened Sorting
  import opened LineBreaking

  /** Tokens that lie behind `base` and inside the contents, and respect the terminators. */
  ghost predicate Cuttable(tokens: seq<TokenT>, base: nat, eols: seq<Endline>, total: nat) {
    && (forall i | 0 <= i < |eols| :: eols[i].size <= eols[i].offset)
    && (forall t | t in tokens :: base <= t.start <= t.stop <= total && Clear(t, eols))
  }

  predicate InLine(p: TokenT, lo: int, hi: int) {
    lo <= p.start <= p.stop <= hi
  }

  /** The piece is the part of `tok` on one of the lines. */
  ghost predicate PartOf(p: TokenT, tok: TokenT, base: nat, eols: seq<Endline>, total: nat) {
    exists lo: nat, hi: nat :: IsLine(base, eols, total, lo, hi) && InLine(p, lo, hi) && p == Clip(tok, lo, hi)
  }

  ghost predicate PartOfSome(p: TokenT, tokens: seq<TokenT>, base: nat, eols: seq<Endline>, total: nat) {
    exists t | t in tokens :: PartOf(p, t, base, eols, total)
  }

  // ---------------------------------------------------------------------------
  // Every piece is the part of a token on one line

  lemma {:induction false} PiecesAreParts(tok: TokenT, base: nat, eols: seq<Endline>, total: nat)
    requires Terminated(base, eols, total) && Cuttable([tok], base, eols, total)
    requires eols != [] ==> tok.start < eols[0].offset
    ensures forall p | p in Pieces(tok, eols) :: PartOf(p, tok, base, eols, total)
    decreases eols
  {
    assert tok in [tok];
    if eols == [] {
      assert IsLine(base, eols, total, base, total);
      assert tok == Clip(tok, base, total);
    } else {
      var eol, rest := eols[0], eols[1..];
      TotalBound(base, eols, total);
      assert IsLine(base, eols, total, base, eol.Stop());
      if tok.stop <= eol.Stop() {
        assert tok == Clip(tok, base, eol.Stop());
      } else {
        var head, tail := TokenT(tok.start, eol.Stop(), tok.kind), TokenT(eol.offset, tok.stop, tok.kind);
        assert head == Clip(tok, base, eol.Stop());
        TailCuttable(tok, tail, eols, total);
        PiecesAreParts(tail, eol.offset, rest, total);
        forall p | p in Pieces(tail, rest)
          ensures PartOf(p, tok, base, eols, total)
        {
          var lo: nat, hi: nat :| IsLine(eol.offset, rest, total, lo, hi) && InLine(p, lo, hi) && p == Clip(tail, lo, hi);
          LineBounds(eol.offset, rest, total, lo, hi);
          assert p == Clip(tok, lo, hi) && IsLine(base, eols, total, lo, hi);
        }
      }
    }
  }

  lemma TailCuttable(tok: TokenT, tail: TokenT, eols: seq<Endline>, total: nat)
    requires eols != [] && Cuttable([tok], 0, eols, total) && Terminated(eols[0].offset, eols[1..], total)
    requires tail == TokenT(eols[0].offset, tok.stop, tok.kind) && tok.stop > eols[0].Stop()
    ensures Cuttable([tail], eols[0].offset, eols[1..], total)
    ensures eols[1..] != [] ==> tail.start < eols[1].offset
  {
    assert tok in [tok];
    TotalBound(eols[0].offset, eols[1..], total);
    assert forall i | 0 <= i < |eols[1..]| :: eols[1..][i] == eols[i + 1];
  }

  lemma {:induction false} BrokenAreParts(tokens: seq<TokenT>, base: nat, eols: seq<Endline>, total: nat)
    requires Terminated(base, eols, total) && Sorted(tokens) && Cuttable(tokens, base, eols, total)
    ensures forall p | p in Broken(tokens, eols) :: PartOfSome(p, tokens, base, eols, total)
    decreases |tokens| + |eols|
  {
    if tokens == [] {
    } else if eols == [] {
      assert IsLine(base, eols, total, base, total);
      forall p | p in tokens
        ensures PartOfSome(p, tokens, base, eols, total)
      {
        assert p == Clip(p, base, total);
        assert PartOf(p, p, base, eols, total);
      }
    } else if tokens[0].start < eols[0].offset {
      PiecesAreParts(tokens[0], base, eols, total);
      BrokenAreParts(tokens[1..], base, eols, total);
      forall p | p in Broken(tokens, eols)
        ensures PartOfSome(p, tokens, base, eols, total)
      {
        if p in Pieces(tokens[0], eols) {
          assert PartOf(p, tokens[0], base, eols, total);
        } else {
          assert p in Broken(tokens[1..], eols);
          assert PartOfSome(p, tokens[1..], base, eols, total);
          var t :| t in tokens[1..] && PartOf(p, t, base, eols, total);
          assert t in tokens;
        }
      }
    } else {
      TotalBound(base, eols, total);
      SkipEndline(tokens, base, eols, total);
      BrokenAreParts(tokens, eols[0].offset, eols[1..], total);
      forall p | p in Broken(tokens, eols)
        ensures PartOfSome(p, tokens, base, eols, total)
      {
        assert p in Broken(tokens, eols[1..]);
        assert PartOfSome(p, tokens, eols[0].offset, eols[1..], total);
        var t :| t in tokens && PartOf(p, t, eols[0].offset, eols[1..], total);
        var lo: nat, hi: nat :| IsLine(eols[0].offset, eols[1..], total, lo, hi) && InLine(p, lo, hi) && p == Clip(t, lo, hi);
        assert IsLine(base, eols, total, lo, hi);
        assert PartOf(p, t, base, eols, total);
      }
    }
  }

  lemma SkipEndline(tokens: seq<TokenT>, base: nat, eols: seq<Endline>, total: nat)
    requires eols != [] && tokens != [] && Sorted(tokens) && Cuttable(tokens, base, eols, total)
    requires tokens[0].start >= eols[0].offset
    ensures Cuttable(tokens, eols[0].offset, eols[1..], total)
  {
    assert forall i | 0 <= i < |eols[1..]| :: eols[1..][i] == eols[i + 1];
    forall t | t in tokens
      ensures eols[0].offset <= t.start
    {
      var i :| 0 <= i < |tokens| && tokens[i] == t;
    }
  }

  // ---------------------------------------------------------------------------
  // Every byte of a line is covered by the parts of the tokens that cover it, in order

  lemma ClipsConcat(a: seq<TokenT>, b: seq<TokenT>, lo: nat, hi: nat)
    ensures Clips(a + b, lo, hi) == Clips(a, lo, hi) + Clips(b, lo, hi)
  {
  }

  lemma {:induction false} FilterMembers<T>(p: T -> bool, s: seq<T>)
    ensures forall e | e in Filter(p, s) :: e in s && p(e)
  {
    if s == [] {
    } else {
      FilterMembers(p, s[1..]);
    }
  }

  /** The pieces of the first token, and those of the others. */
  lemma {:induction false} HeadAndRest(
    p: TokenT -> bool, tokens: seq<TokenT>, head: seq<TokenT>, rest: seq<TokenT>, lo: nat, hi: nat)
    requires tokens != [] && Filter(p, head) == (if p(tokens[0]) then [Clip(tokens[0], lo, hi)] else [])
    requires Filter(p, rest) == Clips(Filter(p, tokens[1..]), lo, hi)
    ensures Filter(p, head + rest) == Clips(Filter(p, tokens), lo, hi)
  {
    FilterConcat(p, head, rest);
    ClipsConcat(if p(tokens[0]) then [tokens[0]] else [], Filter(p, tokens[1..]), lo, hi);
  }

  lemma {:induction false} BrokenAt(
    tokens: seq<TokenT>, base: nat, eols: seq<Endline>, total: nat, lo: nat, hi: nat, y: int, chosen: nat -> bool)
    requires Terminated(base, eols, total) && IsLine(base, eols, total, lo, hi) && lo <= y < hi
    requires Sorted(tokens) && Cuttable(tokens, base, eols, total)
    ensures Filter(At(y, chosen), Broken(tokens, eols)) == Clips(Filter(At(y, chosen), tokens), lo, hi)
    decreases |tokens| + |eols|
  {
    var p := At(y, chosen);
    hide Pieces;
    LineBounds(base, eols, total, lo, hi);
    if tokens == [] {
    } else if eols == [] {
      FilterMembers(p, tokens);
      assert forall t | t in Filter(p, tokens) :: Clip(t, lo, hi) == t;
    } else if tokens[0].start < eols[0].offset {
      PiecesAt(tokens[0], base, eols, total, lo, hi, y, chosen);
      BrokenAt(tokens[1..], base, eols, total, lo, hi, y, chosen);
      HeadAndRest(p, tokens, Pieces(tokens[0], eols), Broken(tokens[1..], eols), lo, hi);
    } else {
      TotalBound(base, eols, total);
      SkipEndline(tokens, base, eols, total);
      if lo == base && hi == eols[0].Stop() {
        BrokenStarts(tokens, eols[0].offset, eols[1..], total);
        FilterNone(p, tokens);
        FilterNone(p, Broken(tokens, eols[1..]));
      } else {
        BrokenAt(tokens, eols[0].offset, eols[1..], total, lo, hi, y, chosen);
      }
    }
  }

  lemma BrokenStarts(tokens: seq<TokenT>, base: nat, eols: seq<Endline>, total: nat)
    requires Terminated(base, eols, total) && Sorted(tokens) && Cuttable(tokens, base, eols, total)
    ensures forall i | 0 <= i < |Broken(tokens, eols)| :: base <= Broken(tokens, eols)[i].start
  {
    BrokenAreParts(tokens, base, eols, total);
    var broken := Broken(tokens, eols);
    forall i | 0 <= i < |broken|
      ensures base <= broken[i].start
    {
      assert broken[i] in broken;
      PartStarts(broken[i], tokens, base, eols, total);
    }
  }

  lemma PartStarts(p: TokenT, tokens: seq<TokenT>, base: nat, eols: seq<Endline>, total: nat)
    requires Terminated(base, eols, total) && PartOfSome(p, tokens, base, eols, total)
    ensures base <= p.start
  {
    var t :| t in tokens && PartOf(p, t, base, eols, total);
    var lo: nat, hi: nat :| IsLine(base, eols, total, lo, hi) && InLine(p, lo, hi) && p == Clip(t, lo, hi);
    LineBounds(base, eols, total, lo, hi);
  }

  // ---------------------------------------------------------------------------
  // Sorting the pieces

  predicate Before(a: TokenT, b: TokenT) {
    if a.start == b.start then b.stop < a.stop else a.start < b.start
  }

  lemma BeforeIsWeakOrder()
    ensures WeakOrder(Before)
  {
  }

  lemma OrderedIsSorted(s: seq<TokenT>)
    ensures Ordered(Before, s) <==> Sorted(s)
  {
    if Ordered(Before, s) {
      forall i, j | 0 <= i < j < |s|
        ensures s[i].start <= s[j].start && (s[i].start == s[j].start ==> s[i].stop >= s[j].stop)
      {
        assert !Before(s[j], s[i]);
      }
    }
  }

  /** Nested tokens leave parts that are in order already, on every byte. */
  lemma ClipsOrdered(tokens: seq<TokenT>, lo: nat, hi: nat, y: int)
    requires lo <= y < hi && Sorted(tokens) && Nested(tokens) && forall t | t in tokens :: t.Covers(y)
    ensures Ordered(Before, Clips(tokens, lo, hi))
  {
    var c := Clips(tokens, lo, hi);
    forall i, j | 0 <= i < j < |c|
      ensures !Before(c[j], c[i])
    {
      assert tokens[i].Covers(y) && tokens[j].Covers(y);
    }
  }

  ghost predicate Pairwise<T>(r: (T, T) -> bool, s: seq<T>) {
    forall i, j | 0 <= i < j < |s| :: r(s[i], s[j])
  }

  lemma {:induction false} FilterPairwise<T>(p: T -> bool, r: (T, T) -> bool, s: seq<T>)
    requires Pairwise(r, s)
    ensures Pairwise(r, Filter(p, s))
  {
    if s == [] {
    } else {
      var tail := Filter(p, s[1..]);
      FilterPairwise(p, r, s[1..]);
      FilterMembers(p, s[1..]);
      assert Filter(p, s) == (if p(s[0]) then [s[0]] else []) + tail;
      forall j | 0 <= j < |tail|
        ensures r(s[0], tail[j])
      {
        assert tail[j] in s[1..];
        var k :| 0 <= k < |s[1..]| && s[1..][k] == tail[j];
        assert s[k + 1] == tail[j];
      }
    }
  }

  predicate InOrder(a: TokenT, b: TokenT) {
    a.start <= b.start && (a.start == b.start ==> a.stop >= b.stop)
  }

  predicate NotCrossing(a: TokenT, b: TokenT) {
    a.stop <= b.start || b.stop <= a.stop
  }

  lemma FilterSortedNested(p: TokenT -> bool, s: seq<TokenT>)
    ensures Sorted(s) ==> Sorted(Filter(p, s))
    ensures Nested(s) ==> Nested(Filter(p, s))
  {
    if Sorted(s) {
      assert Pairwise(InOrder, s);
      FilterPairwise(p, InOrder, s);
    }
    if Nested(s) {
      assert Pairwise(NotCrossing, s);
      FilterPairwise(p, NotCrossing, s);
    }
  }

  // ---------------------------------------------------------------------------
  // The sweep: each line takes the leading pieces that end on it

  function Lines(base: nat, eols: seq<Endline>, total: nat): seq<Endline>
    requires Terminated(base, eols, total)
    decreases eols
  {
    if eols == [] then [Endline(base, total - base)]
    else [Endline(base, eols[0].Stop() - base)] + Lines(eols[0].offset, eols[1..], total)
  }

  /** How many leading pieces end at `hi` or before. */
  function Leading(pieces: seq<TokenT>, hi: nat): (n: nat)
    ensures n <= |pieces|
    ensures forall i | 0 <= i < n :: pieces[i].stop <= hi
    ensures n < |pieces| ==> pieces[n].stop > hi
  {
    if pieces == [] || pieces[0].stop > hi then 0 else 1 + Leading(pieces[1..], hi)
  }

  function Groups(pieces: seq<TokenT>, lines: seq<Endline>): (r: seq<seq<TokenT>>)
    ensures |r| == |lines|
    decreases lines
  {
    if lines == [] then []
    else
      var n := Leading(pieces, lines[0].offset + lines[0].size);
      [pieces[..n]] + Groups(pieces[n..], lines[1..])
  }

  function Flatten(groups: seq<seq<TokenT>>): seq<TokenT> {
    if groups == [] then [] else groups[0] + Flatten(groups[1..])
  }

  predicate OnSomeLine(p: TokenT, base: nat, eols: seq<Endline>, total: nat)
    decreases eols
  {
    if eols == [] then InLine(p, base, total)
    else InLine(p, base, eols[0].Stop()) || OnSomeLine(p, eols[0].offset, eols[1..], total)
  }

  lemma {:induction false} OnSomeLineStart(p: TokenT, base: nat, eols: seq<Endline>, total: nat)
    requires Terminated(base, eols, total) && OnSomeLine(p, base, eols, total)
    ensures base <= p.start <= p.stop <= total
    decreases eols
  {
    TotalBound(base, eols, total);
    if eols != [] && !InLine(p, base, eols[0].Stop()) {
      OnSomeLineStart(p, eols[0].offset, eols[1..], total);
    }
  }

  lemma {:induction false} PartIsOnSomeLine(p: TokenT, base: nat, eols: seq<Endline>, total: nat, lo: nat, hi: nat)
    requires IsLine(base, eols, total, lo, hi) && InLine(p, lo, hi)
    ensures OnSomeLine(p, base, eols, total)
    decreases eols
  {
    if eols != [] && !(lo == base && hi == eols[0].Stop()) {
      PartIsOnSomeLine(p, eols[0].offset, eols[1..], total, lo, hi);
    }
  }

  lemma RestIsBehind(pieces: seq<TokenT>, base: nat, eols: seq<Endline>, total: nat)
    requires Terminated(base, eols, total) && eols != [] && Sorted(pieces)
    requires forall p {:trigger OnSomeLine(p, base, eols, total)} | p in pieces :: OnSomeLine(p, base, eols, total)
    ensures var n := Leading(pieces, eols[0].Stop());
            && Sorted(pieces[n..])
            && (forall p | p in pieces[..n] :: InLine(p, base, eols[0].Stop()))
            && (forall p | p in pieces[n..] :: OnSomeLine(p, eols[0].offset, eols[1..], total))
  {
    var n := Leading(pieces, eols[0].Stop());
    TotalBound(base, eols, total);
    forall p | p in pieces[..n]
      ensures InLine(p, base, eols[0].Stop())
    {
      assert p in pieces && p.stop <= eols[0].Stop();
      OnSomeLineStart(p, base, eols, total);
    }
    forall k: nat | k < |pieces[n..]|
      ensures OnSomeLine(pieces[n..][k], eols[0].offset, eols[1..], total)
    {
      PieceIsBehind(pieces, base, eols, total, k);
    }
  }

  lemma {:induction false} PieceIsBehind(pieces: seq<TokenT>, base: nat, eols: seq<Endline>, total: nat, k: nat)
    requires Terminated(base, eols, total) && eols != [] && Sorted(pieces)
    requires forall p {:trigger OnSomeLine(p, base, eols, total)} | p in pieces :: OnSomeLine(p, base, eols, total)
    requires k < |pieces| - Leading(pieces, eols[0].Stop())
    ensures OnSomeLine(pieces[Leading(pieces, eols[0].Stop()) + k], eols[0].offset, eols[1..], total)
  {
    var n := Leading(pieces, eols[0].Stop());
    var first, p := pieces[n], pieces[n + k];
    TotalBound(base, eols, total);
    assert OnSomeLine(first, base, eols, total) && OnSomeLine(p, base, eols, total);
    assert !InLine(first, base, eols[0].Stop());
    OnSomeLineStart(first, eols[0].offset, eols[1..], total);
  }

  lemma {:induction false} LastLineTakesAll(pieces: seq<TokenT>, base: nat, total: nat)
    requires forall p | p in pieces :: OnSomeLine(p, base, [], total)
    ensures Leading(pieces, total) == |pieces|
  {
    if pieces == [] {
    } else {
      assert pieces[0] in pieces;
      LastLineTakesAll(pieces[1..], base, total);
    }
  }

  lemma GroupsStep(pieces: seq<TokenT>, base: nat, eols: seq<Endline>, total: nat)
    requires eols != [] && Terminated(base, eols, total)
    ensures var n := Leading(pieces, eols[0].Stop());
            Groups(pieces, Lines(base, eols, total))
            == [pieces[..n]] + Groups(pieces[n..], Lines(eols[0].offset, eols[1..], total))
  {
    var lines := Lines(base, eols, total);
    assert lines[1..] == Lines(eols[0].offset, eols[1..], total);
  }

  lemma LaterGroup(pieces: seq<TokenT>, base: nat, eols: seq<Endline>, total: nat, k: nat)
    requires eols != [] && Terminated(base, eols, total) && 0 < k < |Lines(base, eols, total)|
    ensures var lines := Lines(eols[0].offset, eols[1..], total);
            Lines(base, eols, total)[k] == lines[k - 1]
            && Groups(pieces, Lines(base, eols, total))[k] == Groups(pieces[Leading(pieces, eols[0].Stop())..], lines)[k - 1]
  {
    GroupsStep(pieces, base, eols, total);
  }

  lemma GroupsLast(pieces: seq<TokenT>, base: nat, total: nat)
    requires base <= total && forall p | p in pieces :: OnSomeLine(p, base, [], total)
    ensures Groups(pieces, Lines(base, [], total)) == [pieces]
  {
    LastLineTakesAll(pieces, base, total);
    var lines := Lines(base, [], total);
    assert lines[1..] == [] && pieces[..|pieces|] == pieces;
    assert Groups(pieces[|pieces|..], lines[1..]) == [];
  }

  /** What the sweep leaves behind. */
  function Remaining(pieces: seq<TokenT>, lines: seq<Endline>): seq<TokenT>
    decreases lines
  {
    if lines == [] then pieces
    else Remaining(pieces[Leading(pieces, lines[0].offset + lines[0].size)..], lines[1..])
  }

  lemma {:induction false} SweepSplits(pieces: seq<TokenT>, lines: seq<Endline>)
    ensures Flatten(Groups(pieces, lines)) + Remaining(pieces, lines) == pieces
    decreases lines
  {
    if lines == [] {
    } else {
      var n := Leading(pieces, lines[0].offset + lines[0].size);
      SweepSplits(pieces[n..], lines[1..]);
      assert Groups(pieces, lines)[1..] == Groups(pieces[n..], lines[1..]);
      TakeAndRest(pieces, n, Flatten(Groups(pieces[n..], lines[1..])), Remaining(pieces, lines));
    }
  }

  lemma TakeAndRest<T>(s: seq<T>, n: nat, a: seq<T>, b: seq<T>)
    requires n <= |s| && a + b == s[n..]
    ensures s[..n] + a + b == s
  {
    assert s[..n] + a + b == s[..n] + (a + b);
  }

  lemma {:induction false} SweepTakesAll(pieces: seq<TokenT>, base: nat, eols: seq<Endline>, total: nat)
    requires Terminated(base, eols, total) && Sorted(pieces)
    requires forall p {:trigger OnSomeLine(p, base, eols, total)} | p in pieces :: OnSomeLine(p, base, eols, total)
    ensures Remaining(pieces, Lines(base, eols, total)) == []
    decreases eols
  {
    var lines := Lines(base, eols, total);
    if eols == [] {
      LastLineTakesAll(pieces, base, total);
      assert lines[1..] == [];
    } else {
      RestIsBehind(pieces, base, eols, total);
      SweepTakesAll(pieces[Leading(pieces, eols[0].Stop())..], eols[0].offset, eols[1..], total);
      assert lines[1..] == Lines(eols[0].offset, eols[1..], total);
    }
  }

  /** Every piece goes to exactly one line, in order; none is dropped. */
  lemma SweepKeepsAll(pieces: seq<TokenT>, base: nat, eols: seq<Endline>, total: nat)
    requires Terminated(base, eols, total) && Sorted(pieces)
    requires forall p {:trigger OnSomeLine(p, base, eols, total)} | p in pieces :: OnSomeLine(p, base, eols, total)
    ensures Flatten(Groups(pieces, Lines(base, eols, total))) == pieces
  {
    SweepSplits(pieces, Lines(base, eols, total));
    SweepTakesAll(pieces, base, eols, total);
  }

  lemma {:induction false} NotAt(pieces: seq<TokenT>, y: int, chosen: nat -> bool)
    requires forall p | p in pieces :: !p.Covers(y)
    ensures Filter(At(y, chosen), pieces) == []
  {
    if pieces == [] {
    } else {
      assert pieces[0] in pieces;
      NotAt(pieces[1..], y, chosen);
    }
  }

  /** Bytes of the first line are covered by the leading pieces only, and bytes behind it by the others only. */
  lemma FirstLineAt(pieces: seq<TokenT>, base: nat, eols: seq<Endline>, total: nat, y: int, chosen: nat -> bool)
    requires Terminated(base, eols, total) && eols != [] && Sorted(pieces)
    requires forall p {:trigger OnSomeLine(p, base, eols, total)} | p in pieces :: OnSomeLine(p, base, eols, total)
    ensures var n := Leading(pieces, eols[0].Stop());
            && (y < eols[0].Stop() ==> Filter(At(y, chosen), pieces) == Filter(At(y, chosen), pieces[..n]))
            && (y >= eols[0].offset ==> Filter(At(y, chosen), pieces) == Filter(At(y, chosen), pieces[n..]))
  {
    var n := Leading(pieces, eols[0].Stop());
    assert pieces == pieces[..n] + pieces[n..];
    FilterConcat(At(y, chosen), pieces[..n], pieces[n..]);
    if y < eols[0].Stop() {
      assert forall p | p in pieces[n..] :: !p.Covers(y) by {
        RestIsBehind(pieces, base, eols, total);
        TotalBound(base, eols, total);
        forall p | p in pieces[n..]
          ensures !p.Covers(y)
        {
          OnSomeLineStart(p, eols[0].offset, eols[1..], total);
        }
      }
      NotAt(pieces[n..], y, chosen);
    } else if y >= eols[0].offset {
      assert forall p | p in pieces[..n] :: !p.Covers(y) by {
        RestIsBehind(pieces, base, eols, total);
      }
      NotAt(pieces[..n], y, chosen);
    }
  }

  /** The group of a line holds pieces of that line, in order, and on the line's bytes there are no others. */
  ghost predicate Delivers(group: seq<TokenT>, line: Endline, pieces: seq<TokenT>) {
    && Sorted(group)
    && (forall p | p in group :: InLine(p, line.offset, line.offset + line.size) && p in pieces)
    && (forall y, chosen {:trigger At(y, chosen)} | line.offset <= y < line.offset + line.size ::
          Filter(At(y, chosen), group) == Filter(At(y, chosen), pieces))
  }

  lemma DeliversFirst(pieces: seq<TokenT>, base: nat, eols: seq<Endline>, total: nat)
    requires Terminated(base, eols, total) && eols != [] && Sorted(pieces)
    requires forall p {:trigger OnSomeLine(p, base, eols, total)} | p in pieces :: OnSomeLine(p, base, eols, total)
    ensures Delivers(pieces[..Leading(pieces, eols[0].Stop())], Endline(base, eols[0].Stop() - base), pieces)
  {
    var n := Leading(pieces, eols[0].Stop());
    RestIsBehind(pieces, base, eols, total);
    forall y, chosen {:trigger At(y, chosen)} | base <= y < eols[0].Stop()
      ensures Filter(At(y, chosen), pieces[..n]) == Filter(At(y, chosen), pieces)
    {
      FirstLineAt(pieces, base, eols, total, y, chosen);
    }
  }

  lemma DeliversLater(
    pieces: seq<TokenT>, base: nat, eols: seq<Endline>, total: nat, group: seq<TokenT>, line: Endline)
    requires Terminated(base, eols, total) && eols != [] && Sorted(pieces)
    requires forall p {:trigger OnSomeLine(p, base, eols, total)} | p in pieces :: OnSomeLine(p, base, eols, total)
    requires Delivers(group, line, pieces[Leading(pieces, eols[0].Stop())..]) && eols[0].offset <= line.offset
    ensures Delivers(group, line, pieces)
  {
    var rest := pieces[Leading(pieces, eols[0].Stop())..];
    assert forall p | p in rest :: p in pieces;
    forall y, chosen {:trigger At(y, chosen)} | line.offset <= y < line.offset + line.size
      ensures Filter(At(y, chosen), group) == Filter(At(y, chosen), pieces)
    {
      FirstLineAt(pieces, base, eols, total, y, chosen);
    }
  }

  lemma DeliversLast(pieces: seq<TokenT>, base: nat, total: nat)
    requires base <= total && Sorted(pieces) && forall p | p in pieces :: OnSomeLine(p, base, [], total)
    ensures Delivers(pieces, Endline(base, total - base), pieces)
  {
    forall p | p in pieces
      ensures InLine(p, base, total)
    {
      OnSomeLineStart(p, base, [], total);
    }
  }

  lemma {:induction false} LinesAreLines(base: nat, eols: seq<Endline>, total: nat, k: nat)
    requires Terminated(base, eols, total) && k < |Lines(base, eols, total)|
    ensures var line := Lines(base, eols, total)[k];
            IsLine(base, eols, total, line.offset, line.offset + line.size) && base <= line.offset
    decreases eols
  {
    TotalBound(base, eols, total);
    if eols != [] && k > 0 {
      LinesAreLines(eols[0].offset, eols[1..], total, k - 1);
    }
  }

  lemma {:induction false} SweepDelivers(pieces: seq<TokenT>, base: nat, eols: seq<Endline>, total: nat, k: nat)
    requires Terminated(base, eols, total) && Sorted(pieces)
    requires forall p {:trigger OnSomeLine(p, base, eols, total)} | p in pieces :: OnSomeLine(p, base, eols, total)
    requires k < |Lines(base, eols, total)|
    ensures Delivers(Groups(pieces, Lines(base, eols, total))[k], Lines(base, eols, total)[k], pieces)
    decreases eols, 1
  {
    if eols == [] {
      GroupsLast(pieces, base, total);
      DeliversLast(pieces, base, total);
    } else if k == 0 {
      GroupsStep(pieces, base, eols, total);
      DeliversFirst(pieces, base, eols, total);
    } else {
      SweepDeliversLater(pieces, base, eols, total, k);
      LaterGroup(pieces, base, eols, total, k);
    }
  }

  lemma {:induction false} SweepDeliversLater(pieces: seq<TokenT>, base: nat, eols: seq<Endline>, total: nat, k: nat)
    requires Terminated(base, eols, total) && Sorted(pieces)
    requires forall p {:trigger OnSomeLine(p, base, eols, total)} | p in pieces :: OnSomeLine(p, base, eols, total)
    requires eols != [] && 0 < k < |Lines(base, eols, total)|
    ensures var rest := pieces[Leading(pieces, eols[0].Stop())..];
            var lines := Lines(eols[0].offset, eols[1..], total);
            Delivers(Groups(rest, lines)[k - 1], lines[k - 1], pieces)
    decreases eols, 0
  {
    var rest := pieces[Leading(pieces, eols[0].Stop())..];
    var lines := Lines(eols[0].offset, eols[1..], total);
    assert Delivers(Groups(rest, lines)[k - 1], lines[k - 1], rest) by {
      RestIsBehind(pieces, base, eols, total);
      SweepDelivers(rest, eols[0].offset, eols[1..], total, k - 1);
    }
    LinesAreLines(eols[0].offset, eols[1..], total, k - 1);
    DeliversLater(pieces, base, eols, total, Groups(rest, lines)[k - 1], lines[k - 1]);
  }
}
