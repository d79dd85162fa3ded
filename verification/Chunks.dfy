/**
 The parts of a file worth showing: a window around each line and function that was never reached,
 with near windows joined.
 */
module Chunks {
  import opened Sequences

  const TWO32: nat := 0x1_0000_0000

  datatype Function = Function(line: nat, count: nat)

  datatype Entry = Entry(line: nat, hits: nat)

  datatype Chunk = Chunk(first: nat, last: nat)

  function AddU32(a: nat, b: nat): nat {
    if a + b < TWO32 then a + b else a + b - TWO32
  }

  // ---------------------------------------------------------------------------
  // Functions, visited along with the lines

  /** How many functions at the front start before a line. */
  function Before(functions: seq<Function>, line: nat): (n: nat)
    ensures n <= |functions|
  {
    if functions == [] || functions[0].line >= line then 0 else 1 + Before(functions[1..], line)
  }

  function At(functions: seq<Function>, line: nat): (n: nat)
    ensures n <= |functions|
  {
    if functions == [] || functions[0].line != line then 0 else 1 + At(functions[1..], line)
  }

  lemma BeforeFrom(functions: seq<Function>, i: nat, line: nat)
    requires i <= |functions|
    ensures Before(functions[i..], line) ==
            if i < |functions| && functions[i].line < line then 1 + Before(functions[i + 1..], line) else 0
  {
    assert i < |functions| ==> functions[i..][1..] == functions[i + 1..];
  }

  lemma AtFrom(functions: seq<Function>, i: nat, line: nat)
    requires i <= |functions|
    ensures At(functions[i..], line) ==
            if i < |functions| && functions[i].line == line then 1 + At(functions[i + 1..], line) else 0
  {
    assert i < |functions| ==> functions[i..][1..] == functions[i + 1..];
  }

  lemma {:induction false} NoneLeftBefore(functions: seq<Function>, line: nat)
    ensures Before(functions[Before(functions, line)..], line) == 0
  {
    if functions != [] && functions[0].line < line {
      NoneLeftBefore(functions[1..], line);
      assert functions[Before(functions, line)..] == functions[1..][Before(functions[1..], line)..];
    }
  }

  /** The functions visited with one line. */
  function Upto(functions: seq<Function>, line: nat): (n: nat)
    ensures n <= |functions|
  {
    var before := Before(functions, line);
    before + At(functions[before..], line)
  }

  lemma UptoParts(functions: seq<Function>, i: nat, line: nat)
    requires i <= |functions|
    ensures var rest := functions[i..];
            var n, m := Before(rest, line), Upto(rest, line);
            && n <= m && functions[i..i + n] == rest[..n] && functions[i + n..i + m] == rest[n..m]
            && Before(functions[i + n..], line) == 0 && At(functions[i + n..], line) == m - n
  {
    var rest := functions[i..];
    var n := Before(rest, line);
    NoneLeftBefore(rest, line);
    assert functions[i + n..] == rest[n..];
  }

  /** Hands out the functions in order; each method returns those it visits. */
  class FunctionIterator {
    const functions: seq<Function>
    var it: nat

    ghost predicate Valid()
      reads this
    {
      it <= |functions|
    }

    constructor (functions: seq<Function>)
      ensures Valid() && this.functions == functions && it == 0
    {
      this.functions := functions;
      it := 0;
    }

    method VisitBefore(line: nat) returns (visited: seq<Function>)
      requires Valid()
      modifies this
      ensures Valid() && it == old(it) + Before(functions[old(it)..], line)
      ensures visited == functions[old(it)..it]
    {
      hide Before;
      visited := [];
      while it != |functions| && functions[it].line < line
        invariant old(it) <= it <= |functions| && visited == functions[old(it)..it]
        invariant it + Before(functions[it..], line) == old(it) + Before(functions[old(it)..], line)
        decreases |functions| - it
      {
        BeforeFrom(functions, it, line);
        visited := visited + [functions[it]];
        it := it + 1;
      }
      BeforeFrom(functions, it, line);
    }

    method Skip(line: nat)
      requires Valid()
      modifies this
      ensures Valid() && it == old(it) + Before(functions[old(it)..], line)
    {
      hide Before;
      while it != |functions| && functions[it].line < line
        invariant it <= |functions| && it + Before(functions[it..], line) == old(it) + Before(functions[old(it)..], line)
        decreases |functions| - it
      {
        BeforeFrom(functions, it, line);
        it := it + 1;
      }
      BeforeFrom(functions, it, line);
    }

    /** Functions that start before the line are skipped without a visit. */
    method VisitAt(line: nat) returns (visited: seq<Function>)
      requires Valid()
      modifies this
      ensures Valid()
      ensures var from := old(it) + Before(functions[old(it)..], line);
              from <= |functions| && it == from + At(functions[from..], line) && visited == functions[from..it]
    {
      hide At, Before;
      Skip(line);
      visited := [];
      ghost var from := it;
      while it != |functions| && functions[it].line == line
        invariant from <= it <= |functions| && visited == functions[from..it]
        invariant it + At(functions[it..], line) == from + At(functions[from..], line)
        decreases |functions| - it
      {
        AtFrom(functions, it, line);
        visited := visited + [functions[it]];
        it := it + 1;
      }
      AtFrom(functions, it, line);
    }

    /** The functions in front of a line, and those at it. */
    method VisitUpto(line: nat) returns (before: seq<Function>, at: seq<Function>)
      requires Valid()
      modifies this
      ensures Valid()
      ensures var rest := functions[old(it)..];
              && it == old(it) + Upto(rest, line)
              && before == rest[..Before(rest, line)] && at == rest[Before(rest, line)..Upto(rest, line)]
    {
      hide At, Before, Upto;
      UptoParts(functions, it, line);
      before := VisitBefore(line);
      at := VisitAt(line);
    }

    method VisitRest() returns (visited: seq<Function>)
      requires Valid()
      modifies this
      ensures Valid() && it == |functions| && visited == functions[old(it)..]
    {
      visited := [];
      while it != |functions|
        invariant old(it) <= it <= |functions| && visited == functions[old(it)..it]
        decreases |functions| - it
      {
        visited := visited + [functions[it]];
        it := it + 1;
      }
    }
  }

  // ---------------------------------------------------------------------------
  // The lines that are marked

  /** The starts of the functions that were never called. */
  function Uncalled(functions: seq<Function>): seq<nat> {
    if functions == [] then []
    else (if functions[0].count == 0 then [functions[0].line] else []) + Uncalled(functions[1..])
  }

  function MarkOf(e: Entry): seq<nat> {
    if e.hits == 0 then [e.line] else []
  }

  /** The marked lines, in the order in which they are marked. */
  function Marks(coverage: seq<Entry>, functions: seq<Function>): seq<nat>
    decreases coverage
  {
    if coverage == [] then Uncalled(functions)
    else
      var n := Upto(functions, coverage[0].line);
      Uncalled(functions[..n]) + MarkOf(coverage[0]) + Marks(coverage[1..], functions[n..])
  }

  /** The coverage has the line without a hit, or a function that was never called starts there. */
  ghost predicate NeverReached(coverage: seq<Entry>, functions: seq<Function>, line: nat) {
    || (exists e | e in coverage :: e.line == line && e.hits == 0)
    || (exists f | f in functions :: f.line == line && f.count == 0)
  }

  lemma {:induction false} UncalledMeans(functions: seq<Function>, line: nat)
    ensures line in Uncalled(functions) <==> exists f | f in functions :: f.line == line && f.count == 0
  {
    if functions == [] {
    } else {
      UncalledMeans(functions[1..], line);
      assert functions == [functions[0]] + functions[1..];
    }
  }

  /** The lines that are marked are those never reached. */
  lemma {:induction false} MarksMean(coverage: seq<Entry>, functions: seq<Function>, line: nat)
    ensures line in Marks(coverage, functions) <==> NeverReached(coverage, functions, line)
    decreases coverage
  {
    if coverage == [] {
      UncalledMeans(functions, line);
    } else {
      var n := Upto(functions, coverage[0].line);
      MarksMean(coverage[1..], functions[n..], line);
      hide Uncalled, Upto, NeverReached;
      assert functions == functions[..n] + functions[n..] && coverage == [coverage[0]] + coverage[1..];
      MarksFront(coverage[0], coverage[1..], functions[..n], functions[n..], line);
    }
  }

  lemma MarksFront(e: Entry, coverage: seq<Entry>, before: seq<Function>, functions: seq<Function>, line: nat)
    ensures NeverReached([e] + coverage, before + functions, line) <==>
            line in Uncalled(before) || line in MarkOf(e) || NeverReached(coverage, functions, line)
  {
    UncalledMeans(before, line);
    hide Uncalled;
    assert e in [e] + coverage;
    assert forall x | x in [e] + coverage :: x == e || x in coverage;
    assert forall f | f in before + functions :: f in before || f in functions;
    assert forall x | x in coverage :: x in [e] + coverage;
    assert forall f | f in before || f in functions :: f in before + functions;
  }

  function Low(line: nat): nat {
    if line < 3 then 0 else line - 3
  }

  function Marked(chunks: seq<Chunk>, line: nat): seq<Chunk> {
    var start, stop := Low(line), AddU32(line, 3);
    if chunks == [] || AddU32(chunks[|chunks| - 1].last, 3) < start then chunks + [Chunk(start, stop)]
    else chunks[|chunks| - 1 := chunks[|chunks| - 1].(last := stop)]
  }

  function AllMarked(chunks: seq<Chunk>, lines: seq<nat>): seq<Chunk>
    decreases |lines|
  {
    if lines == [] then chunks else AllMarked(Marked(chunks, lines[0]), lines[1..])
  }

  lemma {:induction false} MarkedConcat(chunks: seq<Chunk>, a: seq<nat>, b: seq<nat>)
    ensures AllMarked(chunks, a + b) == AllMarked(AllMarked(chunks, a), b)
    decreases |a|
  {
    if a == [] {
      assert a + b == b;
    } else {
      assert (a + b)[1..] == a[1..] + b;
      MarkedConcat(Marked(chunks, a[0]), a[1..], b);
    }
  }

  class CoverageInfo {
    var coverage: seq<Entry>
    var functions: seq<Function>
    var chunks: seq<Chunk>

    constructor (coverage: seq<Entry>, functions: seq<Function>)
      ensures this.coverage == coverage && this.functions == functions && chunks == []
    {
      this.coverage, this.functions, chunks := coverage, functions, [];
    }

    method MarkLine(line: nat)
      modifies this`chunks
      ensures chunks == Marked(old(chunks), line)
    {
      var start := Low(line);
      var stop := AddU32(line, 3);
      if chunks == [] || AddU32(chunks[|chunks| - 1].last, 3) < start {
        chunks := chunks + [Chunk(start, stop)];
      } else {
        chunks := chunks[|chunks| - 1 := chunks[|chunks| - 1].(last := stop)];
      }
    }

    method MarkFunctions(visited: seq<Function>)
      modifies this`chunks
      ensures chunks == AllMarked(old(chunks), Uncalled(visited))
    {
      ghost var all := AllMarked(chunks, Uncalled(visited));
      assert visited[0..] == visited;
      for i := 0 to |visited|
        invariant AllMarked(chunks, Uncalled(visited[i..])) == all
      {
        UncalledStep(visited, i);
        if visited[i].count == 0 {
          MarkedConcat(chunks, [visited[i].line], Uncalled(visited[i + 1..]));
          OneMarked(chunks, visited[i].line);
          MarkLine(visited[i].line);
        }
      }
    }

    /** The functions in front of a line, those at it, and the line. */
    method MarkAll(before: seq<Function>, at: seq<Function>, e: Entry)
      modifies this`chunks
      ensures chunks == AllMarked(old(chunks), Uncalled(before + at) + MarkOf(e))
    {
      LineMarks(chunks, before, at, e);
      MarkFunctions(before);
      MarkFunctions(at);
      if e.hits == 0 {
        OneMarked(chunks, e.line);
        MarkLine(e.line);
      }
    }

    /** The functions up to a line, and the line; `seen` are the functions visited. */
    method VisitLine(fn: FunctionIterator, e: Entry) returns (ghost seen: seq<Function>)
      requires fn.Valid() && fn.functions == functions
      modifies this`chunks, fn
      ensures fn.Valid() && fn.it == old(fn.it) + Upto(functions[old(fn.it)..], e.line)
      ensures seen == functions[old(fn.it)..fn.it]
      ensures chunks == AllMarked(old(chunks), Uncalled(seen) + MarkOf(e))
    {
      hide Before, At, Uncalled, MarkOf, AllMarked;
      ghost var it := fn.it;
      var before, at := fn.VisitUpto(e.line);
      seen := before + at;
      Together(functions, it, Before(functions[it..], e.line), fn.it);
      MarkAll(before, at, e);
    }

    /** One line of coverage: what is marked so far and what is still to come stay the same together. */
    method TakeLine(fn: FunctionIterator, i: nat, ghost cov: seq<Entry>, ghost funs: seq<Function>, ghost earlier: seq<Function>)
      returns (ghost seen: seq<Function>)
      requires coverage == cov && functions == funs && i < |cov| && fn.Valid() && fn.functions == funs
      requires earlier == funs[..fn.it]
      modifies this`chunks, fn
      ensures fn.Valid() && seen == funs[..fn.it]
      ensures AllMarked(chunks, Marks(cov[i + 1..], funs[fn.it..])) ==
              AllMarked(old(chunks), Marks(cov[i..], funs[old(fn.it)..]))
    {
      ghost var was, it := chunks, fn.it;
      ghost var more := VisitLine(fn, coverage[i]);
      seen := earlier + more;
      TookLine(was, chunks, cov, funs, i, it, fn.it, more);
    }

    /** The lines of coverage, with the functions in front of them and at them. */
    method VisitLines(fn: FunctionIterator, ghost cov: seq<Entry>, ghost funs: seq<Function>)
      returns (ghost seen: seq<Function>)
      requires coverage == cov && functions == funs && fn.Valid() && fn.functions == funs && fn.it == 0
      modifies this`chunks, fn
      ensures fn.Valid() && seen == funs[..fn.it]
      ensures AllMarked(chunks, Uncalled(funs[fn.it..])) == AllMarked(old(chunks), Marks(cov, funs))
    {
      seen := [];
      ghost var all := AllMarked(chunks, Marks(cov, funs));
      assert cov[0..] == cov && funs[0..] == funs;
      for i := 0 to |coverage|
        invariant fn.Valid() && fn.functions == functions == funs && coverage == cov
        invariant seen == funs[..fn.it]
        invariant AllMarked(chunks, Marks(cov[i..], funs[fn.it..])) == all
      {
        seen := TakeLine(fn, i, cov, funs, seen);
      }
    }

    /** All functions are visited, one after the other, whatever their lines. */
    method FindChunks() returns (ghost seen: seq<Function>)
      modifies this`chunks
      ensures chunks == AllMarked([], Marks(coverage, functions))
      ensures forall line :: line in Marks(coverage, functions) <==> NeverReached(coverage, functions, line)
      ensures seen == functions
    {
      forall line
        ensures line in Marks(coverage, functions) <==> NeverReached(coverage, functions, line)
      {
        MarksMean(coverage, functions, line);
      }
      hide NeverReached;
      chunks := [];
      var fn := new FunctionIterator(functions);
      seen := VisitLines(fn, coverage, functions);
      ghost var it := fn.it;
      var visited := fn.VisitRest();
      Suffixes(functions, it, |functions|);
      seen := seen + visited;
      MarkFunctions(visited);
    }
  }

  lemma Together(functions: seq<Function>, it: nat, n: nat, next: nat)
    requires it + n <= next <= |functions|
    ensures functions[it..][..n] + functions[it..][n..next - it] == functions[it..next]
  {
  }

  lemma LineMarks(chunks: seq<Chunk>, before: seq<Function>, at: seq<Function>, e: Entry)
    ensures AllMarked(AllMarked(AllMarked(chunks, Uncalled(before)), Uncalled(at)), MarkOf(e))
            == AllMarked(chunks, Uncalled(before + at) + MarkOf(e))
  {
    UncalledConcat(before, at);
    MarkedConcat(chunks, Uncalled(before), Uncalled(at));
    MarkedConcat(chunks, Uncalled(before + at), MarkOf(e));
  }

  lemma OneMarked(chunks: seq<Chunk>, line: nat)
    ensures AllMarked(chunks, [line]) == Marked(chunks, line)
  {
    assert [line][1..] == [];
  }

  lemma UncalledStep(functions: seq<Function>, i: nat)
    requires i < |functions|
    ensures functions[i].count == 0 ==> Uncalled(functions[i..]) == [functions[i].line] + Uncalled(functions[i + 1..])
    ensures functions[i].count != 0 ==> Uncalled(functions[i..]) == Uncalled(functions[i + 1..])
  {
    assert functions[i..][1..] == functions[i + 1..];
    assert [] + Uncalled(functions[i + 1..]) == Uncalled(functions[i + 1..]);
  }

  lemma {:induction false} UncalledConcat(a: seq<Function>, b: seq<Function>)
    ensures Uncalled(a + b) == Uncalled(a) + Uncalled(b)
  {
    if a == [] {
      assert a + b == b;
    } else {
      assert (a + b)[1..] == a[1..] + b && (a + b)[0] == a[0];
      UncalledConcat(a[1..], b);
      var first := if a[0].count == 0 then [a[0].line] else [];
      assert first + (Uncalled(a[1..]) + Uncalled(b)) == (first + Uncalled(a[1..])) + Uncalled(b);
    }
  }

  /** What one line of coverage adds. */
  lemma {:induction false} TookLine(was: seq<Chunk>, now: seq<Chunk>, coverage: seq<Entry>, functions: seq<Function>,
                                    i: nat, it: nat, next: nat, more: seq<Function>)
    requires i < |coverage| && it <= |functions| && next == it + Upto(functions[it..], coverage[i].line)
    requires more == functions[it..next] && now == AllMarked(was, Uncalled(more) + MarkOf(coverage[i]))
    ensures functions[..it] + more == functions[..next]
    ensures AllMarked(now, Marks(coverage[i + 1..], functions[next..])) == AllMarked(was, Marks(coverage[i..], functions[it..]))
  {
    Suffixes(functions, it, next);
    Suffixes(coverage, i, i + 1);
    FirstLine(was, now, coverage[i..], coverage[i + 1..], functions[it..], more, functions[next..]);
  }

  lemma {:induction false} FirstLine(was: seq<Chunk>, now: seq<Chunk>, coverage: seq<Entry>, rest: seq<Entry>,
                                     functions: seq<Function>, more: seq<Function>, later: seq<Function>)
    requires coverage != [] && rest == coverage[1..]
    requires var n := Upto(functions, coverage[0].line); more == functions[..n] && later == functions[n..]
    requires now == AllMarked(was, Uncalled(more) + MarkOf(coverage[0]))
    ensures AllMarked(now, Marks(rest, later)) == AllMarked(was, Marks(coverage, functions))
  {
    MarkedConcat(was, Uncalled(more) + MarkOf(coverage[0]), Marks(rest, later));
  }
}
