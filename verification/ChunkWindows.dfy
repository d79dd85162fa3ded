/**
 What the chunks hold: the windows of the marked lines, in order, with near ones joined.
 */
module ChunkWindows {
  import opened Chunks

  // ---------------------------------------------------------------------------
  // Everything that was never reached is marked, once

  function Uncovered(coverage: seq<Entry>): seq<nat> {
    if coverage == [] then [] else MarkOf(coverage[0]) + Uncovered(coverage[1..])
  }

  /** Each uncalled function and each uncovered line is marked once, whatever the order of the functions. */
  lemma {:induction false} MarksAreAll(coverage: seq<Entry>, functions: seq<Function>)
    ensures multiset(Marks(coverage, functions)) == multiset(Uncovered(coverage)) + multiset(Uncalled(functions))
    decreases coverage
  {
    hide Upto, Uncalled;
    if coverage == [] {
    } else {
      var n := Upto(functions, coverage[0].line);
      MarksAreAll(coverage[1..], functions[n..]);
      assert functions == functions[..n] + functions[n..];
      UncalledConcat(functions[..n], functions[n..]);
      Regrouped(Uncalled(functions[..n]), MarkOf(coverage[0]), Marks(coverage[1..], functions[n..]),
                Uncovered(coverage[1..]), Uncalled(functions[n..]));
    }
  }

  lemma Regrouped(a: seq<nat>, m: seq<nat>, marks: seq<nat>, u: seq<nat>, b: seq<nat>)
    requires multiset(marks) == multiset(u) + multiset(b)
    ensures multiset(a + m + marks) == multiset(m + u) + multiset(a + b)
  {
  }

  // ---------------------------------------------------------------------------
  // Lines are marked in ascending order

  predicate Sorted(s: seq<nat>) {
    forall i, j | 0 <= i < j < |s| :: s[i] <= s[j]
  }

  predicate Ascending(coverage: seq<Entry>) {
    forall i, j | 0 <= i < j < |coverage| :: coverage[i].line < coverage[j].line
  }

  predicate ByLine(functions: seq<Function>) {
    forall i, j | 0 <= i < j < |functions| :: functions[i].line <= functions[j].line
  }

  predicate AllWithin(s: seq<nat>, lo: nat, hi: nat) {
    forall x | x in s :: lo <= x <= hi
  }

  lemma SortedConcat(a: seq<nat>, b: seq<nat>, lo: nat, mid: nat, mid': nat, hi: nat)
    requires Sorted(a) && Sorted(b) && AllWithin(a, lo, mid) && AllWithin(b, mid', hi) && lo <= mid <= mid' <= hi
    ensures Sorted(a + b) && AllWithin(a + b, lo, hi)
  {
    forall i, j | 0 <= i < j < |a + b|
      ensures (a + b)[i] <= (a + b)[j]
    {
      if i < |a| && |a| <= j {
        assert a[i] in a && b[j - |a|] in b;
      }
    }
  }

  predicate LinesWithin(functions: seq<Function>, lo: nat, hi: nat) {
    forall f | f in functions :: lo <= f.line <= hi
  }

  lemma {:induction false} UncalledSorted(functions: seq<Function>, lo: nat, hi: nat)
    requires ByLine(functions) && LinesWithin(functions, lo, hi) && lo <= hi
    ensures Sorted(Uncalled(functions)) && AllWithin(Uncalled(functions), lo, hi)
    decreases |functions|
  {
    if functions == [] {
    } else {
      var line := functions[0].line;
      assert functions[0] in functions;
      forall f | f in functions[1..]
        ensures line <= f.line <= hi
      {
        var i :| 0 <= i < |functions[1..]| && functions[1..][i] == f;
        assert functions[i + 1] == f;
      }
      UncalledSorted(functions[1..], line, hi);
      var first := if functions[0].count == 0 then [line] else [];
      SortedConcat(first, Uncalled(functions[1..]), lo, line, line, hi);
    }
  }

  ghost predicate SplitsAt(functions: seq<Function>, n: nat, line: nat)
    requires n <= |functions|
  {
    (forall i | 0 <= i < n :: functions[i].line <= line) && (forall i | n <= i < |functions| :: functions[i].line > line)
  }

  lemma {:induction false} BeforeSplits(functions: seq<Function>, line: nat)
    requires ByLine(functions)
    ensures var n := Before(functions, line);
            (forall i | 0 <= i < n :: functions[i].line < line) && (forall i | n <= i < |functions| :: functions[i].line >= line)
    decreases |functions|
  {
    if functions == [] || functions[0].line >= line {
    } else {
      BeforeSplits(functions[1..], line);
      assert forall i | 1 <= i < |functions| :: functions[i] == functions[1..][i - 1];
    }
  }

  lemma {:induction false} AtSplits(functions: seq<Function>, line: nat)
    requires ByLine(functions) && forall i | 0 <= i < |functions| :: functions[i].line >= line
    ensures SplitsAt(functions, At(functions, line), line)
    decreases |functions|
  {
    if functions == [] || functions[0].line != line {
    } else {
      AtSplits(functions[1..], line);
      assert forall i | 1 <= i < |functions| :: functions[i] == functions[1..][i - 1];
    }
  }

  /** In sorted functions, those visited with a line start no later than it, and the others do. */
  lemma UptoSplits(functions: seq<Function>, line: nat)
    requires ByLine(functions)
    ensures SplitsAt(functions, Upto(functions, line), line)
  {
    var before := Before(functions, line);
    BeforeSplits(functions, line);
    AtSplits(functions[before..], line);
    SplitsBehind(functions, before, At(functions[before..], line), line);
  }

  lemma {:induction false} SplitsBehind(functions: seq<Function>, n: nat, m: nat, line: nat)
    requires n + m <= |functions| && SplitsAt(functions[n..], m, line)
    requires forall i | 0 <= i < n :: functions[i].line <= line
    ensures SplitsAt(functions, n + m, line)
  {
    forall i | n <= i < |functions|
      ensures functions[i].line <= line <==> i < n + m
    {
      assert functions[i] == functions[n..][i - n];
    }
  }

  lemma {:induction false} MarksSorted(coverage: seq<Entry>, functions: seq<Function>, lo: nat, hi: nat)
    requires Ascending(coverage) && ByLine(functions) && lo <= hi
    requires (forall e | e in coverage :: lo <= e.line <= hi) && LinesWithin(functions, lo, hi)
    ensures Sorted(Marks(coverage, functions)) && AllWithin(Marks(coverage, functions), lo, hi)
    decreases coverage
  {
    if coverage == [] {
      UncalledSorted(functions, lo, hi);
    } else {
      var e := coverage[0];
      var n := Upto(functions, e.line);
      assert e in coverage;
      UptoSplits(functions, e.line);
      UncalledSorted(functions[..n], lo, e.line);
      SortedConcat(Uncalled(functions[..n]), MarkOf(e), lo, e.line, e.line, e.line);
      if coverage[1..] == [] && functions[n..] == [] {
        assert Marks(coverage[1..], functions[n..]) == [];
      } else {
        LaterLines(coverage, functions, n, hi);
        MarksSorted(coverage[1..], functions[n..], e.line + 1, hi);
        SortedConcat(Uncalled(functions[..n]) + MarkOf(e), Marks(coverage[1..], functions[n..]), lo, e.line, e.line + 1, hi);
      }
    }
  }

  lemma LaterLines(coverage: seq<Entry>, functions: seq<Function>, n: nat, hi: nat)
    requires coverage != [] && Ascending(coverage) && n <= |functions|
    requires (forall e | e in coverage :: e.line <= hi) && (forall f | f in functions :: f.line <= hi)
    requires forall i | n <= i < |functions| :: functions[i].line > coverage[0].line
    requires coverage[1..] != [] || functions[n..] != []
    ensures forall e | e in coverage[1..] :: coverage[0].line + 1 <= e.line <= hi
    ensures LinesWithin(functions[n..], coverage[0].line + 1, hi) && coverage[0].line + 1 <= hi
  {
    forall e | e in coverage[1..]
      ensures coverage[0].line + 1 <= e.line <= hi
    {
      var i :| 0 <= i < |coverage[1..]| && coverage[1..][i] == e;
      assert coverage[i + 1] == e;
    }
    if coverage[1..] != [] {
      assert coverage[1] in coverage;
    } else {
      assert functions[n] in functions;
    }
  }

  // ---------------------------------------------------------------------------
  // The chunks of lines in ascending order

  predicate Holds(chunk: Chunk, line: nat) {
    chunk.first <= Low(line) && line + 3 <= chunk.last
  }

  ghost predicate Held(chunks: seq<Chunk>, line: nat) {
    exists c | c in chunks :: Holds(c, line)
  }

  /** The chunk starts with one window and ends with one, and no stretch of it is far from all. */
  ghost predicate Spanned(chunk: Chunk, lines: seq<nat>) {
    && chunk.first <= chunk.last
    && (exists l | l in lines :: Low(l) == chunk.first)
    && (exists l | l in lines :: l + 3 == chunk.last)
    && (forall x: nat | chunk.first <= x <= chunk.last :: Near(x, lines))
  }

  /** In a window, or no more than two lines in front of one. */
  ghost predicate Near(x: nat, lines: seq<nat>) {
    exists l | l in lines :: Low(l) <= x + 2 && x <= l + 3
  }

  ghost predicate FarApart(chunks: seq<Chunk>) {
    forall i | 0 <= i < |chunks| - 1 :: chunks[i].last + 3 < chunks[i + 1].first
  }

  ghost predicate Windows(chunks: seq<Chunk>, lines: seq<nat>) {
    && (forall l | l in lines :: Held(chunks, l))
    && (forall c | c in chunks :: Spanned(c, lines))
    && FarApart(chunks)
    && (lines == [] <==> chunks == [])
    && (lines != [] ==> chunks[|chunks| - 1].last == lines[|lines| - 1] + 3)
  }

  lemma SpannedMore(chunk: Chunk, lines: seq<nat>, line: nat)
    requires Spanned(chunk, lines)
    ensures Spanned(chunk, lines + [line])
  {
    var more := lines + [line];
    assert forall l | l in lines :: l in more;
    forall x: nat | chunk.first <= x <= chunk.last
      ensures Near(x, more)
    {
      NearMore(x, lines, line);
    }
  }

  lemma NearMore(x: nat, lines: seq<nat>, line: nat)
    requires Near(x, lines)
    ensures Near(x, lines + [line])
  {
    var l :| l in lines && Low(l) <= x + 3 && x <= l + 3;
    assert l in lines + [line];
  }

  lemma SpannedNew(line: nat, lines: seq<nat>)
    ensures Spanned(Chunk(Low(line), line + 3), lines + [line])
  {
    assert line in lines + [line];
  }

  lemma SpannedLonger(chunk: Chunk, lines: seq<nat>, line: nat)
    requires Spanned(chunk, lines) && lines != [] && chunk.last == lines[|lines| - 1] + 3 && lines[|lines| - 1] <= line
    requires Low(line) <= chunk.last + 3
    ensures Spanned(chunk.(last := line + 3), lines + [line])
  {
    var more := lines + [line];
    assert line in more;
    forall x: nat | chunk.first <= x <= line + 3
      ensures Near(x, more)
    {
      if x <= chunk.last {
        NearMore(x, lines, line);
      }
    }
    var l :| l in lines && Low(l) == chunk.first;
    assert l in more;
  }

  /** The window of the line does not wrap around, nor does looking behind the last chunk. */
  predicate NoWrap(chunks: seq<Chunk>, line: nat) {
    line + 3 < TWO32 && (chunks != [] ==> chunks[|chunks| - 1].last + 3 < TWO32 && chunks[|chunks| - 1].last <= line + 3)
  }

  /** A chunk stays as it is, is new, or is the last one and grows. */
  lemma {:induction false} MarkedAt(chunks: seq<Chunk>, line: nat, i: nat)
    requires NoWrap(chunks, line) && i < |Marked(chunks, line)|
    ensures var c, n := Marked(chunks, line)[i], |chunks|;
            || (i < n && c == chunks[i])
            || c == Chunk(Low(line), line + 3)
            || (n > 0 && c == chunks[n - 1].(last := line + 3) && Low(line) <= chunks[n - 1].last + 3)
  {
  }

  /** Marking never takes anything out of a chunk. */
  lemma {:induction false} HeldLater(chunks: seq<Chunk>, line: nat, l: nat)
    requires NoWrap(chunks, line) && Held(chunks, l)
    ensures Held(Marked(chunks, line), l)
  {
    var c :| c in chunks && Holds(c, l);
    var i :| 0 <= i < |chunks| && chunks[i] == c;
    var grown := Marked(chunks, line)[i];
    assert grown.first == c.first && grown.last >= c.last;
    assert grown in Marked(chunks, line) && Holds(grown, l);
  }

  lemma {:induction false} NewIsHeld(chunks: seq<Chunk>, line: nat)
    requires NoWrap(chunks, line) && (chunks != [] ==> chunks[|chunks| - 1].first <= Low(line))
    ensures Held(Marked(chunks, line), line)
  {
    var marked := Marked(chunks, line);
    assert marked[|marked| - 1] in marked && Holds(marked[|marked| - 1], line);
  }

  lemma {:induction false} MarkedIsFar(chunks: seq<Chunk>, line: nat)
    requires FarApart(chunks) && NoWrap(chunks, line)
    ensures FarApart(Marked(chunks, line))
  {
  }

  lemma {:induction false} StartsBefore(chunk: Chunk, lines: seq<nat>, line: nat)
    requires Spanned(chunk, lines) && forall l | l in lines :: l <= line
    ensures chunk.first <= Low(line)
  {
    var l :| l in lines && Low(l) == chunk.first;
  }

  /** A line that is not in front of the others, and close to the end of the numbers only if it is
      the last one. */
  ghost predicate Follows(lines: seq<nat>, line: nat) {
    && (forall l | l in lines :: l <= line)
    && line + 3 < TWO32 && (lines != [] ==> lines[|lines| - 1] + 6 < TWO32)
  }

  lemma {:induction false} LastLine(chunks: seq<Chunk>, lines: seq<nat>, line: nat)
    requires Windows(chunks, lines) && Follows(lines, line)
    ensures NoWrap(chunks, line)
    ensures chunks != [] ==>
              var last := chunks[|chunks| - 1];
              lines != [] && last.last == lines[|lines| - 1] + 3 && lines[|lines| - 1] <= line && last.first <= Low(line)
  {
    if chunks == [] {
    } else {
      assert lines[|lines| - 1] in lines && chunks[|chunks| - 1] in chunks;
      StartsBefore(chunks[|chunks| - 1], lines, line);
    }
  }

  /** Each line that was held stays held; this sees nothing else of the windows. */
  lemma {:induction false} OneHeld(chunks: seq<Chunk>, line: nat, l: nat)
    requires NoWrap(chunks, line) && (chunks != [] ==> chunks[|chunks| - 1].first <= Low(line))
    requires l == line || Held(chunks, l)
    ensures Held(Marked(chunks, line), l)
  {
    if l == line {
      NewIsHeld(chunks, line);
    } else {
      HeldLater(chunks, line, l);
    }
  }

  lemma {:induction false} AllHeld(chunks: seq<Chunk>, lines: seq<nat>, line: nat)
    requires NoWrap(chunks, line) && (chunks != [] ==> chunks[|chunks| - 1].first <= Low(line))
    requires forall l | l in lines :: Held(chunks, l)
    ensures forall l | l in lines + [line] :: Held(Marked(chunks, line), l)
  {
    forall l | l in lines + [line]
      ensures Held(Marked(chunks, line), l)
    {
      OneHeld(chunks, line, l);
    }
  }

  lemma {:induction false} SpannedAt(chunks: seq<Chunk>, lines: seq<nat>, line: nat, i: nat)
    requires NoWrap(chunks, line) && i < |Marked(chunks, line)|
    requires i < |chunks| ==> Spanned(chunks[i], lines)
    requires chunks != [] ==>
               var last := chunks[|chunks| - 1];
               Spanned(last, lines) && lines != [] && last.last == lines[|lines| - 1] + 3 && lines[|lines| - 1] <= line
    ensures Spanned(Marked(chunks, line)[i], lines + [line])
  {
    var c, n := Marked(chunks, line)[i], |chunks|;
    MarkedAt(chunks, line, i);
    if i < n && c == chunks[i] {
      SpannedMore(c, lines, line);
    } else if c == Chunk(Low(line), line + 3) {
      SpannedNew(line, lines);
    } else {
      SpannedLonger(chunks[n - 1], lines, line);
    }
  }

  lemma {:induction false} AllSpanned(chunks: seq<Chunk>, lines: seq<nat>, line: nat)
    requires Windows(chunks, lines) && Follows(lines, line)
    ensures forall c | c in Marked(chunks, line) :: Spanned(c, lines + [line])
  {
    LastLine(chunks, lines, line);
    forall i | 0 <= i < |Marked(chunks, line)|
      ensures Spanned(Marked(chunks, line)[i], lines + [line])
    {
      assert i < |chunks| ==> chunks[i] in chunks;
      assert chunks != [] ==> chunks[|chunks| - 1] in chunks;
      SpannedAt(chunks, lines, line, i);
    }
  }

  /** Marking a line that is not in front of the others. */
  lemma {:induction false} WindowsStep(chunks: seq<Chunk>, lines: seq<nat>, line: nat)
    requires Windows(chunks, lines) && Follows(lines, line)
    ensures Windows(Marked(chunks, line), lines + [line])
  {
    LastLine(chunks, lines, line);
    MarkedIsFar(chunks, line);
    AllHeld(chunks, lines, line);
    AllSpanned(chunks, lines, line);
    LastEnds(chunks, line);
  }

  /** The chunks end with the window of the line marked last, as 32 bits can hold it. */
  lemma {:induction false} LastEnds(chunks: seq<Chunk>, line: nat)
    ensures Marked(chunks, line) != [] && Marked(chunks, line)[|Marked(chunks, line)| - 1].last == AddU32(line, 3)
  {
  }

  /** No window wraps around, and only the last line is within six of the end of the 32-bit numbers. */
  predicate Fits(lines: seq<nat>) {
    (forall l | l in lines :: l + 3 < TWO32) && forall i | 0 <= i < |lines| - 1 :: lines[i] + 6 < TWO32
  }

  lemma SplitLast(lines: seq<nat>)
    requires lines != []
    ensures var front, line := lines[..|lines| - 1], lines[|lines| - 1];
            lines == front + [line] && AllMarked([], lines) == Marked(AllMarked([], front), line)
  {
    var front, line := lines[..|lines| - 1], lines[|lines| - 1];
    assert lines == front + [line];
    MarkedConcat([], front, [line]);
    OneMarked(AllMarked([], front), line);
  }

  lemma {:induction false} ChunksAreWindows(lines: seq<nat>)
    requires Sorted(lines) && Fits(lines)
    ensures Windows(AllMarked([], lines), lines)
    decreases |lines|
  {
    if lines == [] {
    } else {
      var front, line := lines[..|lines| - 1], lines[|lines| - 1];
      SplitLast(lines);
      FrontFits(lines);
      hide AllMarked, Marked, Windows, Sorted, Fits, Follows;
      ChunksAreWindows(front);
      WindowsStep(AllMarked([], front), front, line);
    }
  }

  lemma FrontFits(lines: seq<nat>)
    requires Sorted(lines) && Fits(lines) && lines != []
    ensures var front, line := lines[..|lines| - 1], lines[|lines| - 1];
            Sorted(front) && Fits(front) && Follows(front, line)
  {
    var front, line := lines[..|lines| - 1], lines[|lines| - 1];
    assert line in lines;
    assert forall l | l in front :: l in lines && l <= line;
  }

  /** All ends of chunks are 32-bit numbers. */
  ghost predicate Ends32(chunks: seq<Chunk>) {
    forall i | 0 <= i < |chunks| :: chunks[i].last < TWO32
  }

  lemma {:induction false} MarkedEnds32(chunks: seq<Chunk>, line: nat)
    requires Ends32(chunks) && line < TWO32
    ensures Ends32(Marked(chunks, line))
  {
  }

  lemma {:induction false} EndsAreU32(lines: seq<nat>)
    requires AllWithin(lines, 0, TWO32 - 1)
    ensures Ends32(AllMarked([], lines))
    decreases |lines|
  {
    if lines == [] {
    } else {
      SplitLast(lines);
      FrontWithin(lines, TWO32 - 1);
      EndsAreU32(lines[..|lines| - 1]);
      assert lines[|lines| - 1] in lines;
      MarkedEnds32(AllMarked([], lines[..|lines| - 1]), lines[|lines| - 1]);
    }
  }

  lemma {:induction false} HeldFits(chunks: seq<Chunk>, line: nat)
    requires Ends32(chunks) && Held(chunks, line)
    ensures line + 3 < TWO32
  {
    var c :| c in chunks && Holds(c, line);
    var i :| 0 <= i < |chunks| && chunks[i] == c;
  }

  lemma FrontWithin(lines: seq<nat>, hi: nat)
    requires lines != [] && AllWithin(lines, 0, hi)
    ensures AllWithin(lines[..|lines| - 1], 0, hi)
  {
    var front := lines[..|lines| - 1];
    forall l | l in front
      ensures 0 <= l <= hi
    {
      var i :| 0 <= i < |front| && front[i] == l;
      assert lines[i] == l && l in lines;
    }
  }

  lemma {:induction false} LastEndsAt(lines: seq<nat>)
    requires lines != []
    ensures var chunks := AllMarked([], lines);
            chunks != [] && chunks[|chunks| - 1].last == AddU32(lines[|lines| - 1], 3)
  {
    SplitLast(lines);
    LastEnds(AllMarked([], lines[..|lines| - 1]), lines[|lines| - 1]);
  }

  /** Behind a line near the end a further window starts a chunk of its own that overlaps the last one. */
  lemma {:induction false} Overlaps(chunks: seq<Chunk>, a: nat, b: nat)
    requires chunks != [] && chunks[|chunks| - 1].last == a + 3 && a + 6 >= TWO32 && a <= b && b + 3 < TWO32
    ensures !FarApart(Marked(chunks, b))
  {
    var all, n := Marked(chunks, b), |chunks|;
    assert all == chunks + [Chunk(b - 3, b + 3)];
    assert all[n - 1] == chunks[n - 1] && all[n] == Chunk(b - 3, b + 3);
  }

  lemma {:induction false} OverlapAtEnd(lines: seq<nat>)
    requires |lines| > 1 && Sorted(lines) && lines[|lines| - 1] + 3 < TWO32 <= lines[|lines| - 2] + 6
    ensures !FarApart(AllMarked([], lines))
  {
    var front := lines[..|lines| - 1];
    SplitLast(lines);
    LastEndsAt(front);
    assert front[|front| - 1] == lines[|lines| - 2];
    Overlaps(AllMarked([], front), lines[|lines| - 2], lines[|lines| - 1]);
  }

  lemma {:induction false} WindowsFit(lines: seq<nat>)
    requires Sorted(lines) && AllWithin(lines, 0, TWO32 - 1)
    requires (forall l | l in lines :: Held(AllMarked([], lines), l)) && FarApart(AllMarked([], lines))
    ensures Fits(lines)
  {
    EndsAreU32(lines);
    forall l | l in lines
      ensures l + 3 < TWO32
    {
      HeldFits(AllMarked([], lines), l);
    }
    if |lines| > 1 {
      assert lines[|lines| - 1] in lines;
      if lines[|lines| - 2] + 6 >= TWO32 {
        OverlapAtEnd(lines);
      }
    }
  }

  /** The chunks of lines in ascending order are their windows exactly if no window wraps around and
      only the last line is within six of the end of the numbers. */
  lemma WindowsExactly(lines: seq<nat>)
    requires Sorted(lines) && AllWithin(lines, 0, TWO32 - 1)
    ensures Windows(AllMarked([], lines), lines) <==> Fits(lines)
  {
    if Fits(lines) {
      ChunksAreWindows(lines);
    }
    if Windows(AllMarked([], lines), lines) {
      WindowsFit(lines);
    }
  }

  ghost predicate IsShown(chunks: seq<Chunk>, x: nat) {
    exists c | c in chunks :: c.first <= x <= c.last
  }

  /** Within three lines of one of the lines, or between two of them whose windows have no more than two
      lines between them. */
  ghost predicate Around(lines: seq<nat>, x: nat) {
    exists a, b | a in lines && b in lines :: a <= x + 3 && x <= b + 3 && b <= a + 9
  }

  /** The greatest line whose window starts at `x` or in front of it. */
  lemma {:induction false} LastStart(lines: seq<nat>, x: nat) returns (a: nat)
    requires exists l | l in lines :: l <= x + 3
    ensures a in lines && a <= x + 3 && forall l | l in lines && l <= x + 3 :: l <= a
  {
    var n := |lines| - 1;
    var front, last := lines[..n], lines[n];
    assert lines == front + [last];
    if exists l | l in front :: l <= x + 3 {
      a := LastStart(front, x);
      if a < last <= x + 3 {
        a := last;
      }
    } else {
      var l :| l in lines && l <= x + 3;
      assert l == last;
      a := last;
    }
  }

  lemma ShownIsAround(chunk: Chunk, lines: seq<nat>, x: nat)
    requires Spanned(chunk, lines) && chunk.first <= x <= chunk.last
    ensures Around(lines, x)
  {
    var l0 :| l0 in lines && Low(l0) == chunk.first;
    var a := LastStart(lines, x);
    assert l0 <= a;
    if x <= a + 3 {
      assert a in lines && a <= x + 3 && x <= a + 3 && a <= a + 9;
    } else {
      var y := a + 4;
      assert Near(y, lines);
      var b :| b in lines && Low(b) <= y + 2 && y <= b + 3;
      assert a < b && !(b <= x + 3);
      assert a in lines && b in lines && a <= x + 3 && x <= b + 3 && b <= a + 9;
    }
  }

  lemma {:induction false} FarBehind(chunks: seq<Chunk>, lines: seq<nat>, i: nat, j: nat)
    requires i < j < |chunks| && Windows(chunks, lines)
    ensures chunks[i].last + 3 < chunks[j].first
    decreases j
  {
    Neighbours(chunks, lines, j);
    hide Windows;
    if i + 1 < j {
      FarBehind(chunks, lines, i, j - 1);
    }
  }

  lemma Neighbours(chunks: seq<Chunk>, lines: seq<nat>, j: nat)
    requires 0 < j < |chunks| && Windows(chunks, lines)
    ensures chunks[j - 1].first <= chunks[j - 1].last && chunks[j - 1].last + 3 < chunks[j].first
  {
    hide Near, Held;
    assert chunks[j - 1] in chunks;
  }

  lemma AroundIsShown(chunks: seq<Chunk>, lines: seq<nat>, x: nat)
    requires Windows(chunks, lines) && Around(lines, x)
    ensures IsShown(chunks, x)
  {
    hide Windows, IsShown, Holds;
    var a, b :| a in lines && b in lines && a <= x + 3 && x <= b + 3 && b <= a + 9;
    var i := Holder(chunks, lines, a);
    var j := Holder(chunks, lines, b);
    if i < j {
      FarBehind(chunks, lines, i, j);
    } else if j < i {
      FarBehind(chunks, lines, j, i);
    }
    BetweenWindows(chunks, i, j, a, b, x);
  }

  lemma Holder(chunks: seq<Chunk>, lines: seq<nat>, line: nat) returns (i: nat)
    requires Windows(chunks, lines) && line in lines
    ensures i < |chunks| && Holds(chunks[i], line)
  {
    assert Held(chunks, line);
    var c :| c in chunks && Holds(c, line);
    i :| 0 <= i < |chunks| && chunks[i] == c;
  }

  lemma BetweenWindows(chunks: seq<Chunk>, i: nat, j: nat, a: nat, b: nat, x: nat)
    requires i < |chunks| && j < |chunks| && Holds(chunks[i], a) && Holds(chunks[j], b)
    requires i < j ==> chunks[i].last + 3 < chunks[j].first
    requires j < i ==> chunks[j].last + 3 < chunks[i].first
    requires a <= x + 3 && x <= b + 3 && b <= a + 9
    ensures IsShown(chunks, x)
  {
    assert chunks[i] in chunks && chunks[j] in chunks;
  }

  /** Chunks that are the windows of the lines show exactly what is around these. */
  lemma WindowsShow(chunks: seq<Chunk>, lines: seq<nat>, x: nat)
    requires Windows(chunks, lines)
    ensures IsShown(chunks, x) <==> Around(lines, x)
  {
    if IsShown(chunks, x) {
      var c :| c in chunks && c.first <= x <= c.last;
      ShownIsAround(c, lines, x);
    }
    if Around(lines, x) {
      AroundIsShown(chunks, lines, x);
    }
  }

  /** The same, in terms of what was reached. */
  ghost predicate AroundNeverReached(coverage: seq<Entry>, functions: seq<Function>, x: nat) {
    exists a: nat, b: nat | NeverReached(coverage, functions, a) && NeverReached(coverage, functions, b) ::
      a <= x + 3 && x <= b + 3 && b <= a + 9
  }

  lemma ReachedIsAround(coverage: seq<Entry>, functions: seq<Function>, x: nat)
    ensures Around(Marks(coverage, functions), x) <==> AroundNeverReached(coverage, functions, x)
  {
    var lines := Marks(coverage, functions);
    forall line
      ensures line in lines <==> NeverReached(coverage, functions, line)
    {
      MarksMean(coverage, functions, line);
    }
    hide NeverReached, Marks;
    if Around(lines, x) {
      var a, b :| a in lines && b in lines && a <= x + 3 && x <= b + 3 && b <= a + 9;
      assert NeverReached(coverage, functions, a) && NeverReached(coverage, functions, b);
    }
    if AroundNeverReached(coverage, functions, x) {
      var a: nat, b: nat :| NeverReached(coverage, functions, a) && NeverReached(coverage, functions, b)
        && a <= x + 3 && x <= b + 3 && b <= a + 9;
      assert a in lines && b in lines;
    }
  }

  /** With functions sorted by line: each line and function never reached has its window inside a
      chunk, chunks start and end with such windows and are not near each other, exactly if what is
      marked fits the 32-bit numbers. */
  method FindWindows(info: CoverageInfo)
    requires Ascending(info.coverage) && ByLine(info.functions)
    requires (forall e | e in info.coverage :: e.line < TWO32) && forall f | f in info.functions :: f.line < TWO32
    modifies info
    ensures info.coverage == old(info.coverage) && info.functions == old(info.functions)
    ensures Windows(info.chunks, Marks(info.coverage, info.functions)) <==> Fits(Marks(info.coverage, info.functions))
    ensures Fits(Marks(info.coverage, info.functions)) ==>
              forall x :: IsShown(info.chunks, x) <==> AroundNeverReached(info.coverage, info.functions, x)
  {
    MarksSorted(info.coverage, info.functions, 0, TWO32 - 1);
    WindowsExactly(Marks(info.coverage, info.functions));
    ghost var seen := info.FindChunks();
    if Fits(Marks(info.coverage, info.functions)) {
      forall x
        ensures IsShown(info.chunks, x) <==> AroundNeverReached(info.coverage, info.functions, x)
      {
        WindowsShow(info.chunks, Marks(info.coverage, info.functions), x);
        ReachedIsAround(info.coverage, info.functions, x);
      }
    }
  }

  /** On the last line a window ends before it starts. */
  lemma LastLineWraps()
    ensures AllMarked([], [TWO32 - 1]) == [Chunk(TWO32 - 4, 2)]
  {
    OneMarked([], TWO32 - 1);
  }
}
