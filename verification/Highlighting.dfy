/**
 From the tokens of a file to the lines handed to the highlighter, and on to their spans.
 */
module Highlighting {
  import opened SpanTree
  import opened Sequences
  import opened Sorting
  import opened LineBreaking
  import opened LineTokens

  // ---------------------------------------------------------------------------
  // Adjacent whitespace is merged, and a line's tokens are counted from its start

  function Last(s: seq<TokenT>): TokenT
    requires s != []
  {
    s[|s| - 1]
  }

  function Merged(pieces: seq<TokenT>): (r: seq<TokenT>)
    ensures pieces != [] ==> r != [] && Last(r).kind == Last(pieces).kind && Last(r).stop == Last(pieces).stop
    decreases |pieces|
  {
    if pieces == [] then []
    else
      var front := pieces[..|pieces| - 1];
      var out := Merged(front);
      var p := Last(pieces);
      if front != [] && Last(front).kind == WHITESPACE && p.kind == WHITESPACE && p.start == Last(front).stop then
        out[..|out| - 1] + [Last(out).(stop := p.stop)]
      else out + [p]
  }

  /** Subtraction of `size_t` values wraps around. */
  function SubSize(a: nat, b: nat): nat {
    if b <= a then a - b else (a + 0x1_0000_0000_0000_0000 - b) % 0x1_0000_0000_0000_0000
  }

  function Shift(tok: TokenT, offset: nat): TokenT {
    TokenT(SubSize(tok.start, offset), SubSize(tok.stop, offset), tok.kind)
  }

  function Shifted(tokens: seq<TokenT>, offset: nat): (r: seq<TokenT>)
    ensures |r| == |tokens|
    ensures forall i | 0 <= i < |r| :: r[i] == Shift(tokens[i], offset)
  {
    if tokens == [] then [] else [Shift(tokens[0], offset)] + Shifted(tokens[1..], offset)
  }

  lemma MergedFacts(pieces: seq<TokenT>, lo: nat, hi: nat)
    requires forall p | p in pieces :: InLine(p, lo, hi)
    ensures forall p | p in Merged(pieces) :: InLine(p, lo, hi)
    ensures Visible(Merged(pieces)) == Visible(pieces)
  {
    MergedFit(pieces, lo, hi);
    MergedVisible(pieces);
  }

  lemma {:induction false} MergedFit(pieces: seq<TokenT>, lo: nat, hi: nat)
    requires forall p | p in pieces :: InLine(p, lo, hi)
    ensures forall p | p in Merged(pieces) :: InLine(p, lo, hi)
    decreases |pieces|
  {
    if pieces == [] {
    } else {
      var n := |pieces|;
      var front, p := pieces[..n - 1], Last(pieces);
      MergedFit(front, lo, hi);
      assert p in pieces && (front != [] ==> Last(front) in front && Last(Merged(front)) in Merged(front));
    }
  }

  lemma {:induction false} MergedVisible(pieces: seq<TokenT>)
    ensures Visible(Merged(pieces)) == Visible(pieces)
    decreases |pieces|
  {
    if pieces == [] {
    } else {
      var n := |pieces|;
      var front, p := pieces[..n - 1], Last(pieces);
      var out := Merged(front);
      MergedVisible(front);
      assert pieces == front + [p];
      VisibleConcat(front, [p]);
      VisibleOne(p);
      if Merged(pieces) == out + [p] {
        VisibleConcat(out, [p]);
      } else {
        BlankIsInvisible(out, p.stop);
      }
    }
  }

  predicate Touching(a: TokenT, b: TokenT) {
    a.kind == WHITESPACE && b.kind == WHITESPACE && a.stop == b.start
  }

  ghost predicate NoneTouching(tokens: seq<TokenT>) {
    forall i, j | 0 <= i && j == i + 1 && j < |tokens| :: !Touching(tokens[i], tokens[j])
  }

  /** No blank is left right behind another one. */
  lemma {:induction false} MergedApart(pieces: seq<TokenT>)
    ensures NoneTouching(Merged(pieces))
    decreases |pieces|
  {
    if pieces == [] {
    } else {
      var front, p := pieces[..|pieces| - 1], Last(pieces);
      var out := Merged(front);
      MergedApart(front);
      if Merged(pieces) == out + [p] {
        NoneTouchingSnoc(out, p);
      } else {
        LongerLast(out, p.stop);
      }
    }
  }

  lemma NoneTouchingSnoc(out: seq<TokenT>, p: TokenT)
    requires NoneTouching(out) && (out != [] ==> !Touching(Last(out), p))
    ensures NoneTouching(out + [p])
  {
  }

  lemma LongerLast(out: seq<TokenT>, stop: nat)
    requires NoneTouching(out) && out != []
    ensures NoneTouching(out[..|out| - 1] + [Last(out).(stop := stop)])
  {
    var r := out[..|out| - 1] + [Last(out).(stop := stop)];
    forall i, j | 0 <= i && j == i + 1 && j < |r|
      ensures !Touching(r[i], r[j])
    {
      assert !Touching(out[i], out[j]);
    }
  }

  lemma BlankIsInvisible(out: seq<TokenT>, stop: nat)
    requires out != [] && Last(out).kind == WHITESPACE
    ensures Visible(out[..|out| - 1] + [Last(out).(stop := stop)]) == Visible(out)
  {
    hide Visible;
    var most, q := out[..|out| - 1], Last(out);
    assert out == most + [q];
    VisibleSnoc(most, q);
    VisibleSnoc(most, q.(stop := stop));
  }

  lemma VisibleSnoc(most: seq<TokenT>, p: TokenT)
    ensures Visible(most + [p]) == Visible(most) + if p.kind == WHITESPACE then [] else [p]
  {
    VisibleConcat(most, [p]);
    VisibleOne(p);
  }

  lemma VisibleOne(p: TokenT)
    ensures Visible([p]) == if p.kind == WHITESPACE then [] else [p]
  {
    assert [p][1..] == [];
  }

  /** A byte is covered by a kind. */
  ghost predicate Covered(tokens: seq<TokenT>, kind: nat, y: int) {
    exists t | t in tokens :: t.kind == kind && t.Covers(y)
  }

  lemma {:induction false} MergedCovers(pieces: seq<TokenT>, kind: nat, y: int)
    requires forall p | p in pieces :: p.start <= p.stop
    ensures Covered(Merged(pieces), kind, y) <==> Covered(pieces, kind, y)
    ensures forall p | p in Merged(pieces) :: p.start <= p.stop
    decreases |pieces|
  {
    hide Covered;
    if pieces == [] {
    } else {
      var front, p := pieces[..|pieces| - 1], Last(pieces);
      var out := Merged(front);
      MergedCovers(front, kind, y);
      assert pieces == front + [p] && p in pieces;
      CoveredSnoc(front, p, kind, y);
      if Merged(pieces) == out + [p] {
        CoveredSnoc(out, p, kind, y);
      } else {
        var most, q := out[..|out| - 1], Last(out);
        assert out == most + [q] && q in out;
        CoveredSnoc(most, q, kind, y);
        CoveredSnoc(most, q.(stop := p.stop), kind, y);
      }
    }
  }

  lemma CoveredSnoc(a: seq<TokenT>, p: TokenT, kind: nat, y: int)
    ensures Covered(a + [p], kind, y) <==> Covered(a, kind, y) || (p.kind == kind && p.Covers(y))
  {
    CoveredConcat(a, [p], kind, y);
    CoveredOne(p, kind, y);
  }

  lemma CoveredConcat(a: seq<TokenT>, b: seq<TokenT>, kind: nat, y: int)
    ensures Covered(a + b, kind, y) <==> Covered(a, kind, y) || Covered(b, kind, y)
  {
    if Covered(a + b, kind, y) {
      var t :| t in a + b && t.kind == kind && t.Covers(y);
      assert t in a || t in b;
    }
    if Covered(a, kind, y) {
      var t :| t in a && t.kind == kind && t.Covers(y);
      assert t in a + b;
    }
    if Covered(b, kind, y) {
      var t :| t in b && t.kind == kind && t.Covers(y);
      assert t in a + b;
    }
  }

  lemma CoveredOne(p: TokenT, kind: nat, y: int)
    ensures Covered([p], kind, y) <==> p.kind == kind && p.Covers(y)
  {
    assert p in [p];
  }

  // ---------------------------------------------------------------------------
  // The grammar's result

  const NEWLINE := 1

  datatype LineOut = LineOut(start: nat, length: nat, tokens: seq<TokenT>)

  predicate EndsEarlier(a: Endline, b: Endline) {
    a.offset < b.offset
  }

  predicate SameEnd(a: Endline, b: Endline) {
    a.offset == b.offset
  }

  predicate SameToken(a: TokenT, b: TokenT) {
    a == b
  }

  function SortedEndlines(raw: seq<Endline>): seq<Endline> {
    Unique(SameEnd, StableSort(EndsEarlier, raw))
  }

  function SortedTokens(raw: seq<TokenT>): seq<TokenT> {
    Unique(SameToken, StableSort(Before, raw))
  }

  /** What a grammar promises: the terminators follow each other inside the contents, behind the
      artificial one that starts the first line, and no token starts or ends inside one. */
  ghost predicate Grammatical(endlines: seq<Endline>, tokens: seq<TokenT>, total: nat) {
    var eols := SortedEndlines(endlines);
    && eols != [] && eols[0] == Endline(0, 0)
    && Terminated(0, eols[1..], total)
    && (forall t | t in tokens :: t.start <= t.stop <= total && Clear(t, eols[1..]))
  }

  function Output(group: seq<TokenT>, line: Endline): LineOut {
    LineOut(line.offset, line.size, Shifted(Merged(group), line.offset))
  }

  /** Each line in turn takes the leading pieces that end on it. */
  function HandedOut(pieces: seq<TokenT>, lines: seq<Endline>): (r: seq<LineOut>)
    ensures |r| == |lines|
    decreases lines
  {
    if lines == [] then []
    else
      var n := Leading(pieces, lines[0].offset + lines[0].size);
      [Output(pieces[..n], lines[0])] + HandedOut(pieces[n..], lines[1..])
  }

  lemma {:induction false} HandedOutAt(pieces: seq<TokenT>, lines: seq<Endline>, k: nat)
    requires k < |lines|
    ensures HandedOut(pieces, lines)[k] == Output(Groups(pieces, lines)[k], lines[k])
    decreases lines
  {
    if k == 0 {
    } else {
      HandedOutAt(pieces[Leading(pieces, lines[0].offset + lines[0].size)..], lines[1..], k - 1);
    }
  }

  /** All pieces of the file, in the order of the sweep. */
  function SortedPieces(endlines: seq<Endline>, tokens: seq<TokenT>): seq<TokenT> {
    var eols := SortedEndlines(endlines);
    if forall i | 0 <= i < |eols| :: eols[i].size <= eols[i].offset then StableSort(Before, Broken(SortedTokens(tokens), eols))
    else []
  }

  // ---------------------------------------------------------------------------
  // The pieces are sorted, lie on lines and come from tokens

  lemma {:induction false} UniqueKeeps(s: seq<TokenT>)
    ensures forall t :: t in Unique(SameToken, s) <==> t in s
    decreases |s|
  {
    if |s| >= 2 {
      UniqueKeeps(s[1..]);
      assert s == [s[0]] + s[1..];
      assert s[0] == s[1] ==> [s[0]] + s[2..] == s[1..];
    }
  }

  lemma {:induction false} UniqueSorted(s: seq<TokenT>)
    requires Sorted(s)
    ensures Sorted(Unique(SameToken, s))
    decreases |s|
  {
    if |s| >= 2 {
      FirstInOrder(s);
      hide Sorted;
      UniqueSorted(s[1..]);
      UniqueKeeps(s[1..]);
      if s[0] == s[1] {
        assert [s[0]] + s[2..] == s[1..];
      } else {
        SortedFront(s[0], Unique(SameToken, s[1..]));
      }
    }
  }

  lemma FirstInOrder(s: seq<TokenT>)
    requires Sorted(s) && s != []
    ensures Sorted(s[1..]) && forall t | t in s[1..] :: InOrder(s[0], t)
  {
    forall t | t in s[1..]
      ensures InOrder(s[0], t)
    {
      var k :| 0 <= k < |s| - 1 && s[1..][k] == t;
      assert s[k + 1] == t;
    }
  }

  lemma SortedFront(tok: TokenT, later: seq<TokenT>)
    requires Sorted(later) && forall t | t in later :: InOrder(tok, t)
    ensures Sorted([tok] + later)
  {
    var all := [tok] + later;
    forall i, j | 0 <= i < j < |all|
      ensures all[i].start <= all[j].start && (all[i].start == all[j].start ==> all[i].stop >= all[j].stop)
    {
      assert all[j] == later[j - 1] && (i > 0 ==> all[i] == later[i - 1]);
      assert i == 0 ==> InOrder(tok, later[j - 1]);
    }
  }

  lemma SortedTokensFacts(raw: seq<TokenT>)
    ensures Sorted(SortedTokens(raw)) && forall t :: t in SortedTokens(raw) <==> t in raw
  {
    var s := StableSort(Before, raw);
    BeforeIsWeakOrder();
    SortOrdered(Before, raw);
    OrderedIsSorted(s);
    SortKeeps(Before, raw);
    UniqueKeeps(s);
    UniqueSorted(s);
    assert forall t :: t in raw <==> t in multiset(raw);
    assert forall t :: t in s <==> t in multiset(s);
  }

  lemma FirstEndline(tokens: seq<TokenT>, eols: seq<Endline>)
    requires eols != [] && eols[0] == Endline(0, 0) && forall i | 0 <= i < |eols| :: eols[i].size <= eols[i].offset
    ensures Broken(tokens, eols) == Broken(tokens, eols[1..])
  {
  }

  lemma EolsFit(eols: seq<Endline>, total: nat)
    requires eols != [] && eols[0] == Endline(0, 0) && Terminated(0, eols[1..], total)
    ensures forall i | 0 <= i < |eols| :: eols[i].size <= eols[i].offset
    ensures forall i | 0 <= i < |eols[1..]| :: eols[1..][i].size <= eols[1..][i].offset
  {
    TotalBound(0, eols[1..], total);
    forall i | 0 <= i < |eols|
      ensures eols[i].size <= eols[i].offset
    {
      if i > 0 {
        assert eols[i] == eols[1..][i - 1];
      }
    }
  }

  /** Sorted tokens between well-formed terminators, and the sorted pieces they are cut into. */
  ghost predicate Prepared(eols: seq<Endline>, tokens: seq<TokenT>, pieces: seq<TokenT>, total: nat) {
    && Terminated(0, eols, total)
    && Sorted(tokens) && Cuttable(tokens, 0, eols, total)
    && pieces == StableSort(Before, Broken(tokens, eols)) && Sorted(pieces)
    && (forall p {:trigger PartOfSome(p, tokens, 0, eols, total)} | p in pieces :: PartOfSome(p, tokens, 0, eols, total))
    && (forall p {:trigger OnSomeLine(p, 0, eols, total)} | p in pieces :: OnSomeLine(p, 0, eols, total))
  }

  lemma Prepare(endlines: seq<Endline>, raw: seq<TokenT>, total: nat)
    requires Grammatical(endlines, raw, total)
    ensures var eols := SortedEndlines(endlines);
            && (forall i | 0 <= i < |eols| :: eols[i].size <= eols[i].offset)
            && Prepared(eols[1..], SortedTokens(raw), SortedPieces(endlines, raw), total)
            && SortedPieces(endlines, raw) == StableSort(Before, Broken(SortedTokens(raw), eols))
  {
    var eols, tokens := SortedEndlines(endlines), SortedTokens(raw);
    EolsFit(eols, total);
    SortedTokensFacts(raw);
    FirstEndline(tokens, eols);
    PiecesArePrepared(eols[1..], tokens, total);
  }

  lemma PiecesArePrepared(eols: seq<Endline>, tokens: seq<TokenT>, total: nat)
    requires Terminated(0, eols, total) && Sorted(tokens) && Cuttable(tokens, 0, eols, total)
    ensures Prepared(eols, tokens, StableSort(Before, Broken(tokens, eols)), total)
  {
    var broken := Broken(tokens, eols);
    var pieces := StableSort(Before, broken);
    BeforeIsWeakOrder();
    SortOrdered(Before, broken);
    OrderedIsSorted(pieces);
    SortKeeps(Before, broken);
    BrokenAreParts(tokens, 0, eols, total);
    forall p | p in pieces
      ensures PartOfSome(p, tokens, 0, eols, total) && OnSomeLine(p, 0, eols, total)
    {
      assert p in multiset(pieces) && p in multiset(broken) && p in broken;
      PartOfSomeIsOnLine(p, tokens, eols, total);
    }
  }

  lemma PartOfSomeIsOnLine(p: TokenT, tokens: seq<TokenT>, eols: seq<Endline>, total: nat)
    requires PartOfSome(p, tokens, 0, eols, total)
    ensures OnSomeLine(p, 0, eols, total)
  {
    var t :| t in tokens && PartOf(p, t, 0, eols, total);
    var lo: nat, hi: nat :| IsLine(0, eols, total, lo, hi) && InLine(p, lo, hi) && p == Clip(t, lo, hi);
    PartIsOnSomeLine(p, 0, eols, total, lo, hi);
  }

  /** The lines of a file: what each one is handed. */
  ghost function ExpectedLines(endlines: seq<Endline>, raw: seq<TokenT>, total: nat): (r: seq<LineOut>)
    requires Grammatical(endlines, raw, total)
  {
    var eols := SortedEndlines(endlines)[1..];
    HandedOut(SortedPieces(endlines, raw), Lines(0, eols, total))
  }

  class GrammarResult {
    var endlines: seq<Endline>
    var tokens: seq<TokenT>

    constructor ()
      ensures endlines == [Endline(0, 0)] && tokens == []
    {
      endlines := [Endline(0, 0)];
      tokens := [];
    }

    method Emit(start: nat, end: nat, kind: nat)
      requires start <= end
      modifies this
      ensures endlines == old(endlines) + if kind == NEWLINE then [Endline(end, end - start)] else []
      ensures tokens == old(tokens) + if kind == NEWLINE then [] else [TokenT(start, end, kind)]
    {
      if kind == NEWLINE {
        endlines := endlines + [Endline(end, end - start)];
        return;
      }
      tokens := tokens + [TokenT(start, end, kind)];
    }

    /** Hands out the file line by line. */
    method ProduceLines(contentsLength: nat) returns (lines: seq<LineOut>)
      requires Grammatical(endlines, tokens, contentsLength)
      modifies this
      ensures lines == ExpectedLines(old(endlines), old(tokens), contentsLength)
      ensures tokens == []
    {
      Prepare(endlines, tokens, contentsLength);
      ghost var eols := SortedEndlines(endlines);
      ghost var pieces := SortedPieces(endlines, tokens);
      endlines := SortedEndlines(endlines);
      tokens := SortedTokens(tokens);
      var broken := BreakLines(endlines, tokens);
      broken := StableSort(Before, broken);
      tokens := [];
      MeasureLines(contentsLength);
      lines := Sweep(broken, endlines);
    }

    /** Overwrites the sizes of terminators with the sizes of the lines in front of them. */
    method MeasureLines(contentsLength: nat)
      requires endlines != [] && endlines[0] == Endline(0, 0) && Terminated(0, endlines[1..], contentsLength)
      modifies `endlines
      ensures endlines == Lines(0, old(endlines)[1..], contentsLength)
    {
      ghost var eols := endlines;
      ghost var lines := Lines(0, eols[1..], contentsLength);
      SizesOfLines(eols, contentsLength);
      hide Lines, Terminated;
      var i := 1;
      while i < |endlines|
        invariant 1 <= i <= |endlines| && Measured(endlines, eols, lines, i - 1)
      {
        var prev, curr := endlines[i - 1], endlines[i];
        endlines := endlines[i - 1 := Endline(prev.offset, curr.offset - prev.offset - curr.size)];
        i := i + 1;
      }
      var back := endlines[|endlines| - 1];
      var size := if contentsLength < back.offset then 0 else contentsLength - back.offset;
      endlines := endlines[|endlines| - 1 := Endline(back.offset, size)];
    }
  }

  /** The first `n` terminators are overwritten. */
  ghost predicate Measured(endlines: seq<Endline>, eols: seq<Endline>, lines: seq<Endline>, n: nat) {
    |endlines| == |eols| == |lines| && forall j | 0 <= j < |eols| :: endlines[j] == if j < n then lines[j] else eols[j]
  }

  function StartOf(base: nat, eols: seq<Endline>, j: nat): nat
    requires j <= |eols|
  {
    if j == 0 then base else eols[j - 1].offset
  }

  lemma {:induction false} LineAt(base: nat, eols: seq<Endline>, total: nat, j: nat)
    requires Terminated(base, eols, total) && j <= |eols|
    ensures var start, stop := StartOf(base, eols, j), if j < |eols| then eols[j].Stop() else total;
            && |Lines(base, eols, total)| == |eols| + 1 && start <= stop
            && Lines(base, eols, total)[j] == Endline(start, stop - start)
    decreases eols
  {
    if eols == [] {
    } else {
      LineAt(eols[0].offset, eols[1..], total, if j == 0 then 0 else j - 1);
    }
  }

  /** Where each line starts and how long it is. */
  lemma SizesOfLines(eols: seq<Endline>, total: nat)
    requires eols != [] && eols[0] == Endline(0, 0) && Terminated(0, eols[1..], total)
    ensures var lines, last := Lines(0, eols[1..], total), |eols| - 1;
            && |lines| == |eols|
            && lines[last].offset == eols[last].offset && lines[last].size == total - eols[last].offset
            && forall j | 0 <= j < last ::
                 lines[j].offset == eols[j].offset && lines[j].size == eols[j + 1].offset - eols[j].offset - eols[j + 1].size
  {
    hide Lines, Terminated;
    var lines := Lines(0, eols[1..], total);
    LineAt(0, eols[1..], total, |eols| - 1);
    StartsAt(eols, |eols| - 1);
    forall j | 0 <= j < |eols| - 1
      ensures lines[j].offset == eols[j].offset && lines[j].size == eols[j + 1].offset - eols[j].offset - eols[j + 1].size
    {
      LineAt(0, eols[1..], total, j);
      StartsAt(eols, j);
      assert eols[1..][j] == eols[j + 1];
    }
  }

  lemma StartsAt(eols: seq<Endline>, j: nat)
    requires j < |eols| && eols[0] == Endline(0, 0)
    ensures StartOf(0, eols[1..], j) == eols[j].offset
  {
  }

  lemma SweepStep(broken: seq<TokenT>, endlines: seq<Endline>, it: nat, k: nat, next: nat, line: LineOut)
    requires it <= |broken| && k < |endlines|
    requires next == it + Leading(broken[it..], endlines[k].offset + endlines[k].size)
    requires line == Output(broken[it..][..next - it], endlines[k])
    ensures HandedOut(broken[it..], endlines[k..]) == [line] + HandedOut(broken[next..], endlines[k + 1..])
  {
    Suffixes(broken, it, next);
    Suffixes(endlines, k, k + 1);
    FirstHandedOut(broken[it..], endlines[k..], next - it, broken[next..], endlines[k + 1..], line);
  }

  lemma FirstHandedOut(pieces: seq<TokenT>, lines: seq<Endline>, n: nat, later: seq<TokenT>, rest: seq<Endline>,
                       line: LineOut)
    requires lines != [] && n == Leading(pieces, lines[0].offset + lines[0].size)
    requires later == pieces[n..] && rest == lines[1..] && line == Output(pieces[..n], lines[0])
    ensures HandedOut(pieces, lines) == [line] + HandedOut(later, rest)
  {
  }

  /** One forward pass over the pieces serves all lines. */
  method Sweep(broken: seq<TokenT>, endlines: seq<Endline>) returns (lines: seq<LineOut>)
    ensures lines == HandedOut(broken, endlines)
  {
    ghost var all := HandedOut(broken, endlines);
    lines := [];
    var it := 0;
    var k := 0;
    while k < |endlines|
      invariant 0 <= k <= |endlines| && 0 <= it <= |broken|
      invariant lines + HandedOut(broken[it..], endlines[k..]) == all
    {
      var next, line := TakeLine(broken, it, endlines[k]);
      SweepStep(broken, endlines, it, k, next, line);
      Reassociate(lines, line, HandedOut(broken[next..], endlines[k + 1..]));
      lines := lines + [line];
      it := next;
      k := k + 1;
    }
  }

  /** The tokens of one line: the leading pieces that end on it, merged and counted from its start. */
  method TakeLine(broken: seq<TokenT>, from: nat, endline: Endline) returns (it: nat, line: LineOut)
    requires from <= |broken|
    ensures it == from + Leading(broken[from..], endline.offset + endline.size)
    ensures line == Output(broken[from..][..it - from], endline)
  {
    var lineTokens;
    it, lineTokens := MergeLine(broken, from, endline.offset + endline.size);
    lineTokens := ShiftLine(lineTokens, endline.offset);
    line := LineOut(endline.offset, endline.size, lineTokens);
  }

  /** How far the line is merged, and what is remembered of the last piece. */
  ghost predicate MergedTo(rest: seq<TokenT>, m: nat, lineTokens: seq<TokenT>, prevWs: bool, prevEnd: nat) {
    && m <= |rest| && lineTokens == Merged(rest[..m])
    && (m == 0 ==> !prevWs)
    && (m > 0 ==> lineTokens != [] && prevWs == (rest[m - 1].kind == WHITESPACE) && prevEnd == rest[m - 1].stop)
  }

  /** One more piece. */
  function MergedWith(lineTokens: seq<TokenT>, prevWs: bool, prevEnd: nat, p: TokenT): seq<TokenT>
    requires prevWs ==> lineTokens != []
  {
    if prevWs && p.kind == WHITESPACE && p.start == prevEnd then
      lineTokens[|lineTokens| - 1 := Last(lineTokens).(stop := p.stop)]
    else lineTokens + [p]
  }

  lemma MergedStep(rest: seq<TokenT>, m: nat, lineTokens: seq<TokenT>, prevWs: bool, prevEnd: nat)
    requires MergedTo(rest, m, lineTokens, prevWs, prevEnd) && m < |rest|
    ensures prevWs ==> lineTokens != []
    ensures var p := rest[m];
            MergedTo(rest, m + 1, MergedWith(lineTokens, prevWs, prevEnd, p), p.kind == WHITESPACE, p.stop)
  {
    var more := rest[..m + 1];
    assert more[..m] == rest[..m] && Last(more) == rest[m] && (m > 0 ==> Last(rest[..m]) == rest[m - 1]);
  }

  method MergePiece(lineTokens: seq<TokenT>, prevWs: bool, prevEnd: nat, piece: TokenT) returns (r: seq<TokenT>)
    requires prevWs ==> lineTokens != []
    ensures r == MergedWith(lineTokens, prevWs, prevEnd, piece)
  {
    if prevWs && piece.kind == WHITESPACE && piece.start == prevEnd {
      var back := lineTokens[|lineTokens| - 1];
      r := lineTokens[|lineTokens| - 1 := back.(stop := piece.stop)];
    } else {
      r := lineTokens + [piece];
    }
  }

  /** The pieces from `from` up to `it` lie on the line that ends at `eol`, and are merged. */
  ghost predicate MergedUpto(broken: seq<TokenT>, from: nat, it: nat, eol: nat,
                             lineTokens: seq<TokenT>, prevWs: bool, prevEnd: nat) {
    && from <= it <= |broken| && it - from <= Leading(broken[from..], eol)
    && MergedTo(broken[from..], it - from, lineTokens, prevWs, prevEnd)
  }

  lemma MergedNone(broken: seq<TokenT>, from: nat, eol: nat)
    requires from <= |broken|
    ensures MergedUpto(broken, from, from, eol, [], false, 0)
  {
  }

  lemma MergedOne(broken: seq<TokenT>, from: nat, it: nat, eol: nat,
                  lineTokens: seq<TokenT>, prevWs: bool, prevEnd: nat)
    requires MergedUpto(broken, from, it, eol, lineTokens, prevWs, prevEnd)
    requires it < |broken| && broken[it].stop <= eol
    ensures prevWs ==> lineTokens != []
    ensures var p := broken[it];
            MergedUpto(broken, from, it + 1, eol, MergedWith(lineTokens, prevWs, prevEnd, p), p.kind == WHITESPACE, p.stop)
  {
    hide MergedTo;
    assert broken[from..][it - from] == broken[it];
    MergedStep(broken[from..], it - from, lineTokens, prevWs, prevEnd);
  }

  lemma MergedAll(broken: seq<TokenT>, from: nat, it: nat, eol: nat,
                  lineTokens: seq<TokenT>, prevWs: bool, prevEnd: nat)
    requires MergedUpto(broken, from, it, eol, lineTokens, prevWs, prevEnd)
    requires it < |broken| ==> broken[it].stop > eol
    ensures it == from + Leading(broken[from..], eol) && lineTokens == Merged(broken[from..][..it - from])
  {
    assert it < |broken| ==> broken[from..][it - from] == broken[it];
  }

  method MergeLine(broken: seq<TokenT>, from: nat, eol: nat) returns (it: nat, lineTokens: seq<TokenT>)
    requires from <= |broken|
    ensures it == from + Leading(broken[from..], eol)
    ensures lineTokens == Merged(broken[from..][..it - from])
  {
    hide MergedUpto, MergedWith, Merged, Leading;
    lineTokens := [];
    var prevEnd := 0;
    var prevWs := false;
    it := from;
    MergedNone(broken, from, eol);
    while it != |broken| && broken[it].stop <= eol
      invariant from <= it <= |broken| && MergedUpto(broken, from, it, eol, lineTokens, prevWs, prevEnd)
      decreases |broken| - it
    {
      MergedOne(broken, from, it, eol, lineTokens, prevWs, prevEnd);
      lineTokens := MergePiece(lineTokens, prevWs, prevEnd, broken[it]);
      prevWs := broken[it].kind == WHITESPACE;
      prevEnd := broken[it].stop;
      it := it + 1;
    }
    MergedAll(broken, from, it, eol, lineTokens, prevWs, prevEnd);
  }

  method ShiftLine(tokens: seq<TokenT>, offset: nat) returns (lineTokens: seq<TokenT>)
    ensures lineTokens == Shifted(tokens, offset)
  {
    lineTokens := tokens;
    var j := 0;
    while j < |lineTokens|
      invariant 0 <= j <= |lineTokens| == |tokens|
      invariant forall l | 0 <= l < |tokens| :: lineTokens[l] == if l < j then Shifted(tokens, offset)[l] else tokens[l]
    {
      lineTokens := lineTokens[j := Shift(lineTokens[j], offset)];
      j := j + 1;
    }
  }
}
