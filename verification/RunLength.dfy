/**
 Line coverage as runs: a hit count for each covered line, and runs of 31 bits for the lines between.
 Line numbers are 32-bit, and both sides rely on their wrapping around.
 */
module RunLength {
  import opened Sequences

  const TWO32: nat := 0x1_0000_0000
  const MAX31: nat := 0x7fff_ffff

  /** The hits of one line; a `std::map` lists its entries by ascending line. */
  datatype Entry = Entry(line: nat, hits: nat)

  datatype Run = Run(value: nat, isNull: bool)

  predicate Bounded(entries: seq<Entry>) {
    forall i | 0 <= i < |entries| :: entries[i].line < TWO32 && entries[i].hits < TWO32
  }

  predicate Ascending(entries: seq<Entry>) {
    forall i, j | 0 <= i < j < |entries| :: entries[i].line < entries[j].line
  }

  /** Line coverage: 32-bit numbers, by ascending line. */
  type LineCoverage = entries: seq<Entry> | Bounded(entries) && Ascending(entries) witness []

  function AddU32(a: nat, b: nat): nat {
    if a + b < TWO32 then a + b else a + b - TWO32
  }

  /** How many lines lie between two lines; behind line 0, which stands for the start too, this wraps. */
  function Gap(prev: nat, line: nat): nat {
    if prev < line then line - prev - 1
    else if prev < line + TWO32 then line + TWO32 - prev - 1 else 0
  }

  function Capped(hits: nat): nat {
    if hits < MAX31 then hits else MAX31
  }

  /** The low 31 bits of a 32-bit value. */
  function Low31(value: nat): nat {
    if value <= MAX31 then value else value - MAX31 - 1
  }

  // ---------------------------------------------------------------------------
  // What the coverage is written as

  function Nulls(n: nat): (r: seq<Run>)
    decreases n
  {
    if n == 0 then [] else [Run(Capped(n), true)] + Nulls(n - Capped(n))
  }

  function Body(prev: nat, entries: seq<Entry>): seq<Run>
    decreases |entries|
  {
    if entries == [] then []
    else
      Nulls(Gap(prev, entries[0].line)) + [Run(Capped(entries[0].hits), false)] + Body(entries[0].line, entries[1..])
  }

  function LastLine(prev: nat, entries: seq<Entry>): nat {
    if entries == [] then prev else entries[|entries| - 1].line
  }

  function Tail(prev: nat, total: nat): seq<Run> {
    if prev < total then Nulls(total - prev - 1) else []
  }

  /** The number of lines: no fewer than the last covered one. */
  function Total(entries: seq<Entry>, lineCount: nat): nat {
    var last, count := LastLine(0, entries), lineCount % TWO32;
    if last < count then count else last
  }

  function Encoded(entries: seq<Entry>, lineCount: nat): seq<Run> {
    Body(0, entries) + Tail(LastLine(0, entries), Total(entries, lineCount))
  }

  lemma Regroup<T>(a: seq<T>, b: seq<T>, c: seq<T>)
    ensures a + (b + c) == (a + b) + c
  {
  }

  method PushNulls(runs: seq<Run>, count: nat) returns (r: seq<Run>)
    ensures r == runs + Nulls(count)
  {
    r := runs;
    ghost var all := runs + Nulls(count);
    var nullLines: nat := count;
    while nullLines != 0
      invariant r + Nulls(nullLines) == all
      decreases nullLines
    {
      var chunk := Capped(nullLines);
      Regroup(r, [Run(chunk, true)], Nulls(nullLines - chunk));
      nullLines := nullLines - chunk;
      r := r + [Run(chunk, true)];
    }
  }

  lemma BodyStep(prev: nat, entries: seq<Entry>, i: nat, runs: seq<Run>)
    requires i < |entries|
    ensures runs + Body(prev, entries[i..]) ==
            (runs + Nulls(Gap(prev, entries[i].line)) + [Run(Capped(entries[i].hits), false)])
            + Body(entries[i].line, entries[i + 1..])
  {
    assert entries[i..][1..] == entries[i + 1..];
  }

  /** Every call of the visitor, in order. */
  method VisitLines(entries: LineCoverage, lineCount: nat) returns (runs: seq<Run>, total: nat)
    ensures runs == Encoded(entries, lineCount) && total == Total(entries, lineCount)
  {
    runs := [];
    ghost var body := Body(0, entries);
    var prevLine: nat := 0;
    for i := 0 to |entries|
      invariant prevLine == LastLine(0, entries[..i])
      invariant runs + Body(prevLine, entries[i..]) == body
    {
      BodyStep(prevLine, entries, i, runs);
      runs := PushNulls(runs, Gap(prevLine, entries[i].line));
      runs := runs + [Run(Capped(entries[i].hits), false)];
      prevLine := entries[i].line;
    }
    assert entries[..|entries|] == entries && runs == body;
    total := lineCount % TWO32;
    if total < prevLine {
      total := prevLine;
    }
    if prevLine < total {
      runs := PushNulls(runs, total - prevLine - 1);
    }
  }

  // ---------------------------------------------------------------------------
  // What is counted

  datatype Stats = Stats(total: nat, relevant: nat, visited: nat)

  /** How many runs are lines, and how many of these were hit. */
  function Relevant(runs: seq<Run>): nat {
    if runs == [] then 0 else (if runs[0].isNull then 0 else 1) + Relevant(runs[1..])
  }

  function Visited(runs: seq<Run>): nat {
    if runs == [] then 0 else (if runs[0].isNull || runs[0].value == 0 then 0 else 1) + Visited(runs[1..])
  }

  function HitLines(entries: seq<Entry>): nat {
    if entries == [] then 0 else (if entries[0].hits == 0 then 0 else 1) + HitLines(entries[1..])
  }

  lemma {:induction false} CountsConcat(a: seq<Run>, b: seq<Run>)
    ensures Relevant(a + b) == Relevant(a) + Relevant(b) && Visited(a + b) == Visited(a) + Visited(b)
    decreases |a|
  {
    if a == [] {
      assert a + b == b;
    } else {
      assert (a + b)[1..] == a[1..] + b;
      CountsConcat(a[1..], b);
    }
  }

  lemma {:induction false} NullsCount(n: nat)
    ensures Relevant(Nulls(n)) == 0 && Visited(Nulls(n)) == 0
    ensures forall i | 0 <= i < |Nulls(n)| :: Nulls(n)[i].value <= MAX31
    decreases n
  {
    if n == 0 {
    } else {
      NullsCount(n - Capped(n));
      assert Nulls(n)[1..] == Nulls(n - Capped(n));
    }
  }

  lemma {:induction false} BodyCounts(prev: nat, entries: seq<Entry>)
    ensures Relevant(Body(prev, entries)) == |entries| && Visited(Body(prev, entries)) == HitLines(entries)
    ensures forall i | 0 <= i < |Body(prev, entries)| :: Body(prev, entries)[i].value <= MAX31
    decreases |entries|
  {
    if entries == [] {
    } else {
      var gap, hit := Nulls(Gap(prev, entries[0].line)), [Run(Capped(entries[0].hits), false)];
      var rest := Body(entries[0].line, entries[1..]);
      NullsCount(Gap(prev, entries[0].line));
      BodyCounts(entries[0].line, entries[1..]);
      CountsConcat(gap + hit, rest);
      CountsConcat(gap, hit);
      assert hit[1..] == [];
    }
  }

  lemma EncodedCounts(entries: seq<Entry>, lineCount: nat)
    ensures var runs := Encoded(entries, lineCount);
            && Relevant(runs) == |entries| && Visited(runs) == HitLines(entries)
            && forall i | 0 <= i < |runs| :: runs[i].value <= MAX31
  {
    var last, total := LastLine(0, entries), Total(entries, lineCount);
    BodyCounts(0, entries);
    CountsConcat(Body(0, entries), Tail(last, total));
    NullsCount(if last < total then total - last - 1 else 0);
  }

  lemma {:induction false} LinesBelow(entries: seq<Entry>, i: nat)
    requires Ascending(entries) && i < |entries|
    ensures i <= entries[i].line
  {
    if i == 0 {
    } else {
      LinesBelow(entries, i - 1);
    }
  }

  lemma {:induction false} CountsBelow(runs: seq<Run>)
    ensures Visited(runs) <= Relevant(runs)
  {
    if runs == [] {
    } else {
      CountsBelow(runs[1..]);
    }
  }

  /** A counter of 32 bits after `n` steps, no more than it takes to wrap once. */
  function Wrap32(n: nat): nat {
    if n < TWO32 then n else n - TWO32
  }

  lemma CountsStep(runs: seq<Run>, i: nat)
    requires i < |runs|
    ensures Relevant(runs[..i + 1]) == Relevant(runs[..i]) + (if runs[i].isNull then 0 else 1)
    ensures Visited(runs[..i + 1]) == Visited(runs[..i]) + (if runs[i].isNull || runs[i].value == 0 then 0 else 1)
  {
    assert runs[..i + 1] == runs[..i] + [runs[i]] && [runs[i]][1..] == [];
    CountsConcat(runs[..i], [runs[i]]);
  }

  lemma CountsBound(runs: seq<Run>, i: nat)
    requires i <= |runs|
    ensures Relevant(runs[..i]) <= Relevant(runs) && Visited(runs[..i]) <= Visited(runs)
  {
    assert runs == runs[..i] + runs[i..];
    CountsConcat(runs[..i], runs[i..]);
  }

  /** The second pass over the lines: stores what the visitor sees, and counts it. */
  method StoreRuns(runs: seq<Run>) returns (coverage: seq<Run>, relevant: nat, visited: nat)
    requires Relevant(runs) <= TWO32 && forall i | 0 <= i < |runs| :: runs[i].value <= MAX31
    ensures coverage == runs && relevant == Wrap32(Relevant(runs)) && visited == Wrap32(Visited(runs))
  {
    coverage, relevant, visited := [], 0, 0;
    CountsBelow(runs);
    for i := 0 to |runs|
      invariant coverage == runs[..i]
      invariant relevant == Wrap32(Relevant(runs[..i])) && visited == Wrap32(Visited(runs[..i]))
    {
      CountsStep(runs, i);
      CountsBound(runs, i + 1);
      coverage := coverage + [Run(Low31(runs[i].value), runs[i].isNull)];
      if !runs[i].isNull {
        relevant := AddU32(relevant, 1);
        if runs[i].value != 0 {
          visited := AddU32(visited, 1);
        }
      }
    }
    assert runs[..|runs|] == runs;
  }

  /** The coverage of one file in a report. */
  class FileInfo {
    var lineCoverage: LineCoverage

    constructor (lineCoverage: LineCoverage)
      ensures this.lineCoverage == lineCoverage
    {
      this.lineCoverage := lineCoverage;
    }

    /** The counts are those of the map; only a map of all 2^32 lines wraps them. */
    method ExpandCoverage(lineCount: nat) returns (coverage: seq<Run>, stats: Stats)
      ensures coverage == Encoded(lineCoverage, lineCount)
      ensures stats == Stats(Total(lineCoverage, lineCount), Wrap32(|lineCoverage|), Wrap32(HitLines(lineCoverage)))
    {
      var runs, total := VisitLines(lineCoverage, lineCount);
      EncodedCounts(lineCoverage, lineCount);
      if |lineCoverage| > 0 {
        LinesBelow(lineCoverage, |lineCoverage| - 1);
      }
      var relevant, visited;
      coverage, relevant, visited := StoreRuns(runs);
      stats := Stats(total, relevant, visited);
    }
  }

  /** Writing the coverage of a file and reading it back. */
  method WriteAndRead(info: FileInfo, lineCount: nat) returns (coverage: map<nat, nat>)
    ensures coverage == CappedMap(MapOf(info.lineCoverage))
  {
    var runs, _ := info.ExpandCoverage(lineCount);
    coverage := FromCoverage(runs);
    RoundTrip(info.lineCoverage, lineCount);
  }

  // ---------------------------------------------------------------------------
  // Reading the runs back

  function EndLine(runs: seq<Run>, line: nat): nat
    decreases runs
  {
    if runs == [] then line else EndLine(runs[1..], AddU32(line, if runs[0].isNull then runs[0].value else 1))
  }

  function Decoded(runs: seq<Run>, line: nat, coverage: map<nat, nat>): map<nat, nat>
    decreases runs
  {
    if runs == [] then coverage
    else if runs[0].isNull then Decoded(runs[1..], AddU32(line, runs[0].value), coverage)
    else Decoded(runs[1..], AddU32(line, 1), coverage[AddU32(line, 1) := runs[0].value])
  }

  method FromCoverage(lines: seq<Run>) returns (coverage: map<nat, nat>)
    ensures coverage == Decoded(lines, 0, map[])
  {
    coverage := map[];
    var line: nat := 0;
    for i := 0 to |lines|
      invariant Decoded(lines[i..], line, coverage) == Decoded(lines, 0, map[])
    {
      assert lines[i..][1..] == lines[i + 1..];
      if lines[i].isNull {
        line := AddU32(line, lines[i].value);
        continue;
      }
      line := AddU32(line, 1);
      coverage := coverage[line := lines[i].value];
    }
  }

  lemma {:induction false} DecodedConcat(a: seq<Run>, b: seq<Run>, line: nat, coverage: map<nat, nat>)
    ensures Decoded(a + b, line, coverage) == Decoded(b, EndLine(a, line), Decoded(a, line, coverage))
    ensures EndLine(a + b, line) == EndLine(b, EndLine(a, line))
    decreases a
  {
    if a == [] {
      assert a + b == b;
    } else {
      assert (a + b)[1..] == a[1..] + b;
      if a[0].isNull {
        DecodedConcat(a[1..], b, AddU32(line, a[0].value), coverage);
      } else {
        DecodedConcat(a[1..], b, AddU32(line, 1), coverage[AddU32(line, 1) := a[0].value]);
      }
    }
  }

  lemma AddInSteps(line: nat, n: nat, chunk: nat)
    requires line < TWO32 && chunk <= n < TWO32
    ensures AddU32(AddU32(line, chunk), n - chunk) == AddU32(line, n)
  {
  }

  /** A run of uncovered lines only moves the line on. */
  lemma {:induction false} NullsMove(n: nat, line: nat, coverage: map<nat, nat>)
    requires line < TWO32 && n < TWO32
    ensures Decoded(Nulls(n), line, coverage) == coverage && EndLine(Nulls(n), line) == AddU32(line, n)
    decreases n
  {
    if n == 0 {
    } else {
      var chunk := Capped(n);
      AddInSteps(line, n, chunk);
      NullsMove(n - chunk, AddU32(line, chunk), coverage);
      assert Nulls(n)[1..] == Nulls(n - chunk);
    }
  }

  function MapOf(entries: seq<Entry>): map<nat, nat> {
    if entries == [] then map[] else MapOf(entries[..|entries| - 1])[entries[|entries| - 1].line := entries[|entries| - 1].hits]
  }

  /** The same lines, with the hits a run can hold. */
  function CappedMap(coverage: map<nat, nat>): map<nat, nat> {
    map line | line in coverage :: Capped(coverage[line])
  }

  /** After the gap comes the next line, even if it is line 0. */
  lemma GapLeads(prev: nat, line: nat)
    requires line < TWO32 && (prev < line || (prev == 0 && line == 0))
    ensures Gap(prev, line) < TWO32 && AddU32(AddU32(prev, Gap(prev, line)), 1) == line
  {
  }

  /** Encoding one more entry at the end. */
  lemma {:induction false} BodySnoc(prev: nat, entries: seq<Entry>, e: Entry)
    ensures Body(prev, entries + [e]) ==
            Body(prev, entries) + (Nulls(Gap(LastLine(prev, entries), e.line)) + [Run(Capped(e.hits), false)])
    decreases |entries|
  {
    if entries == [] {
      assert entries + [e] == [e] && [e][1..] == [];
    } else {
      assert (entries + [e])[1..] == entries[1..] + [e] && (entries + [e])[0] == entries[0];
      BodySnoc(entries[0].line, entries[1..], e);
    }
  }

  /** Entries keep clear of each other, and so does the start unless the first line is line 0. */
  lemma Follows(entries: seq<Entry>, n: nat)
    requires Ascending(entries) && n < |entries|
    ensures LastLine(0, entries[..n]) < entries[n].line || (LastLine(0, entries[..n]) == 0 == entries[n].line)
    ensures Ascending(entries[..n])
  {
  }

  lemma {:induction false} BodyDecodes(entries: seq<Entry>)
    requires Bounded(entries) && Ascending(entries)
    ensures Decoded(Body(0, entries), 0, map[]) == CappedMap(MapOf(entries))
    ensures EndLine(Body(0, entries), 0) == LastLine(0, entries)
    decreases |entries|
  {
    if entries == [] {
    } else {
      var n := |entries| - 1;
      var front, e := entries[..n], entries[n];
      assert entries == front + [e];
      Follows(entries, n);
      BodyDecodes(front);
      BodySnoc(0, front, e);
      var prev, covered := LastLine(0, front), CappedMap(MapOf(front));
      EntryDecodes(prev, e, covered);
      DecodedConcat(Body(0, front), Nulls(Gap(prev, e.line)) + [Run(Capped(e.hits), false)], 0, map[]);
      CappedNext(front, e);
    }
  }

  lemma CappedNext(front: seq<Entry>, e: Entry)
    ensures CappedMap(MapOf(front + [e])) == CappedMap(MapOf(front))[e.line := Capped(e.hits)]
  {
    assert (front + [e])[..|front|] == front;
  }

  lemma EntryDecodes(prev: nat, e: Entry, coverage: map<nat, nat>)
    requires e.line < TWO32 && (prev < e.line || (prev == 0 && e.line == 0))
    ensures var runs := Nulls(Gap(prev, e.line)) + [Run(Capped(e.hits), false)];
            Decoded(runs, prev, coverage) == coverage[e.line := Capped(e.hits)] && EndLine(runs, prev) == e.line
  {
    var gap, hit := Gap(prev, e.line), [Run(Capped(e.hits), false)];
    GapLeads(prev, e.line);
    DecodedConcat(Nulls(gap), hit, prev, coverage);
    NullsMove(gap, prev, coverage);
    assert hit[1..] == [];
  }

  /** Reading the runs back gives the map again, with the hits cut off at 31 bits. */
  lemma RoundTrip(entries: seq<Entry>, lineCount: nat)
    requires Bounded(entries) && Ascending(entries)
    ensures Decoded(Encoded(entries, lineCount), 0, map[]) == CappedMap(MapOf(entries))
  {
    var last, total := LastLine(0, entries), Total(entries, lineCount);
    BodyDecodes(entries);
    DecodedConcat(Body(0, entries), Tail(last, total), 0, map[]);
    if last < total {
      NullsMove(total - last - 1, last, CappedMap(MapOf(entries)));
    }
  }

  /** The decoder ends on the last line, or one line short of the total when uncovered lines follow. */
  lemma DecoderEnds(entries: seq<Entry>, lineCount: nat)
    requires Bounded(entries) && Ascending(entries)
    ensures EndLine(Encoded(entries, lineCount), 0) ==
            if LastLine(0, entries) < Total(entries, lineCount) then Total(entries, lineCount) - 1 else LastLine(0, entries)
  {
    var last, total := LastLine(0, entries), Total(entries, lineCount);
    BodyDecodes(entries);
    DecodedConcat(Body(0, entries), Tail(last, total), 0, map[]);
    if last < total {
      NullsMove(total - last - 1, last, map[]);
    }
  }

  /** Every map has such a listing. */
  lemma {:induction false} Listing(coverage: map<nat, nat>) returns (entries: seq<Entry>)
    ensures Ascending(entries) && MapOf(entries) == coverage && |entries| == |coverage|
    decreases |coverage|
  {
    assert MapOf([]) == map[];
    hide MapOf, Ascending;
    if coverage == map[] {
      entries := [];
      NothingAscends();
    } else {
      var last := Greatest(coverage.Keys);
      var rest := coverage - {last};
      TakenFromMap(coverage, last);
      var front := Listing(rest);
      ListedBelow(front, last);
      entries := Appended(front, Entry(last, coverage[last]));
    }
  }

  lemma TakenFromMap(coverage: map<nat, nat>, line: nat)
    requires line in coverage
    ensures var rest := coverage - {line};
            coverage == rest[line := coverage[line]] && |coverage| == |rest| + 1 && line !in rest
  {
    var rest := coverage - {line};
    assert coverage.Keys == rest.Keys + {line};
  }

  lemma NothingAscends()
    ensures Ascending([])
  {
  }

  lemma ListedBelow(front: seq<Entry>, last: nat)
    requires forall line | line in MapOf(front) :: line < last
    ensures forall i | 0 <= i < |front| :: front[i].line < last
  {
    ListedLines(front);
  }

  lemma Appended(front: seq<Entry>, e: Entry) returns (entries: seq<Entry>)
    requires Ascending(front) && forall i | 0 <= i < |front| :: front[i].line < e.line
    ensures Ascending(entries) && MapOf(entries) == MapOf(front)[e.line := e.hits] && |entries| == |front| + 1
  {
    entries := front + [e];
    assert entries[..|front|] == front;
  }

  lemma {:induction false} Greatest(s: set<nat>) returns (n: nat)
    requires s != {}
    ensures n in s && forall k | k in s :: k <= n
    decreases |s|
  {
    n :| n in s;
    if s != {n} {
      assert s == s - {n} + {n};
      var m := Greatest(s - {n});
      if n < m {
        n := m;
      }
    }
  }

  lemma {:induction false} ListedLines(entries: seq<Entry>)
    ensures forall i {:trigger entries[i]} | 0 <= i < |entries| :: entries[i].line in MapOf(entries)
    decreases |entries|
  {
    if entries == [] {
    } else {
      ListedLines(entries[..|entries| - 1]);
    }
  }

  lemma {:induction false} ListedHits(entries: seq<Entry>, i: nat)
    requires Ascending(entries) && i < |entries|
    ensures entries[i].line in MapOf(entries) && MapOf(entries)[entries[i].line] == entries[i].hits
    decreases |entries|
  {
    if i < |entries| - 1 {
      ListedHits(entries[..|entries| - 1], i);
    }
  }

  /** A map of 32-bit numbers is written and read back with its hits cut off at 31 bits. */
  lemma EveryMapRoundTrips(coverage: map<nat, nat>, lineCount: nat) returns (entries: seq<Entry>)
    requires forall line | line in coverage :: line < TWO32 && coverage[line] < TWO32
    ensures Bounded(entries) && Ascending(entries) && MapOf(entries) == coverage
    ensures Decoded(Encoded(entries, lineCount), 0, map[]) == CappedMap(coverage)
    ensures Relevant(Encoded(entries, lineCount)) == |coverage|
  {
    entries := Listing(coverage);
    forall i | 0 <= i < |entries|
      ensures entries[i].line < TWO32 && entries[i].hits < TWO32
    {
      ListedHits(entries, i);
    }
    RoundTrip(entries, lineCount);
    EncodedCounts(entries, lineCount);
  }

  // ---------------------------------------------------------------------------
  // What the runs say, line by line

  datatype LineState = Uncovered | Hits(count: nat)

  function Blank(n: nat): (r: seq<LineState>)
    ensures |r| == n && forall k | 0 <= k < n :: r[k] == Uncovered
  {
    if n == 0 then [] else [Uncovered] + Blank(n - 1)
  }

  /** One element for each line from line 1 on. */
  function Lined(runs: seq<Run>): seq<LineState> {
    if runs == [] then [] else (if runs[0].isNull then Blank(runs[0].value) else [Hits(runs[0].value)]) + Lined(runs[1..])
  }

  lemma {:induction false} LinedConcat(a: seq<Run>, b: seq<Run>)
    ensures Lined(a + b) == Lined(a) + Lined(b)
  {
    hide Blank;
    if a == [] {
      assert a + b == b;
    } else {
      assert (a + b)[0] == a[0] && (a + b)[1..] == a[1..] + b;
      LinedConcat(a[1..], b);
      Associative(if a[0].isNull then Blank(a[0].value) else [Hits(a[0].value)], Lined(a[1..]), Lined(b));
    }
  }

  ghost predicate AllBlank(lines: seq<LineState>) {
    forall k | 0 <= k < |lines| :: lines[k] == Uncovered
  }

  lemma {:induction false} LinedNulls(n: nat)
    ensures |Lined(Nulls(n))| == n && AllBlank(Lined(Nulls(n)))
    decreases n
  {
    if n == 0 {
    } else {
      LinedNulls(n - Capped(n));
      var later := Nulls(n - Capped(n));
      assert Nulls(n) == [Run(Capped(n), true)] + later && Nulls(n)[1..] == later;
      hide Nulls, Capped, Blank;
      assert Lined(Nulls(n)) == Blank(Capped(n)) + Lined(later);
    }
  }

  /** In the lines behind line `prev` that of the entry has its hits, cut off at 31 bits. */
  ghost predicate Says(lines: seq<LineState>, prev: nat, e: Entry) {
    && prev < e.line <= prev + |lines|
    && lines[e.line - prev - 1] == Hits(if e.hits < 0x7fff_ffff then e.hits else 0x7fff_ffff)
  }

  ghost predicate SaysAll(lines: seq<LineState>, prev: nat, entries: seq<Entry>) {
    forall e | e in entries :: Says(lines, prev, e)
  }

  /** Lines without an entry are not covered. */
  ghost predicate SaysOnly(lines: seq<LineState>, prev: nat, entries: seq<Entry>) {
    forall k | 0 <= k < |lines| && lines[k] != Uncovered :: HasLine(entries, prev + 1 + k)
  }

  ghost predicate HasLine(entries: seq<Entry>, line: nat) {
    exists e | e in entries :: e.line == line
  }

  lemma FrontSays(lines: seq<LineState>, prev: nat, first: Entry, blank: seq<LineState>, later: seq<LineState>)
    requires prev < first.line && |blank| == first.line - prev - 1 && lines == blank + [Hits(Capped(first.hits))] + later
    ensures Says(lines, prev, first)
  {
  }

  lemma LaterSays(lines: seq<LineState>, prev: nat, first: Entry, blank: seq<LineState>, hit: LineState,
                  later: seq<LineState>, e: Entry)
    requires prev < first.line && |blank| == first.line - prev - 1 && lines == blank + [hit] + later
    requires Says(later, first.line, e)
    ensures Says(lines, prev, e)
  {
    assert lines[|blank| + 1..] == later;
    assert lines[e.line - prev - 1] == later[e.line - first.line - 1];
  }

  lemma OnlySays(lines: seq<LineState>, prev: nat, first: Entry, rest: seq<Entry>, blank: seq<LineState>, hit: LineState,
                 later: seq<LineState>)
    requires prev < first.line && |blank| == first.line - prev - 1 && lines == blank + [hit] + later
    requires AllBlank(blank) && SaysOnly(later, first.line, rest)
    ensures SaysOnly(lines, prev, [first] + rest)
  {
    forall k | 0 <= k < |lines| && lines[k] != Uncovered
      ensures HasLine([first] + rest, prev + 1 + k)
    {
      if k == |blank| {
        assert first in [first] + rest;
      } else {
        assert k > |blank| && lines[k] == later[k - |blank| - 1];
        assert HasLine(rest, first.line + 1 + (k - |blank| - 1));
        var e :| e in rest && e.line == prev + 1 + k;
        assert e in [first] + rest;
      }
    }
  }

  lemma {:induction false} BodySays(prev: nat, entries: seq<Entry>)
    requires Ascending(entries) && (entries != [] ==> prev < entries[0].line)
    ensures SaysAll(Lined(Body(prev, entries)), prev, entries) && SaysOnly(Lined(Body(prev, entries)), prev, entries)
    ensures |Lined(Body(prev, entries))| == LastLine(prev, entries) - prev
    decreases |entries|
  {
    if entries == [] {
    } else {
      var first, rest := entries[0], entries[1..];
      var gap, later := first.line - prev - 1, Lined(Body(first.line, rest));
      assert Gap(prev, first.line) == gap && entries == [first] + rest;
      assert rest != [] ==> first.line < rest[0].line;
      FrontAscends(entries);
      BodySays(first.line, rest);
      BodyFront(prev, entries);
      LinedNulls(gap);
      var lines := Lined(Body(prev, entries));
      hide Lined, Body, Says, SaysOnly, AllBlank, Nulls, Ascending;
      FrontSays(lines, prev, first, Lined(Nulls(gap)), later);
      OnlySays(lines, prev, first, rest, Lined(Nulls(gap)), Hits(Capped(first.hits)), later);
      forall e | e in entries
        ensures Says(lines, prev, e)
      {
        if e in rest {
          LaterSays(lines, prev, first, Lined(Nulls(gap)), Hits(Capped(first.hits)), later, e);
        }
      }
    }
  }

  lemma FrontAscends(entries: seq<Entry>)
    requires Ascending(entries) && entries != []
    ensures Ascending(entries[1..])
  {
  }

  lemma BodyFront(prev: nat, entries: seq<Entry>)
    requires entries != []
    ensures Lined(Body(prev, entries)) == Lined(Nulls(Gap(prev, entries[0].line))) + [Hits(Capped(entries[0].hits))]
                                          + Lined(Body(entries[0].line, entries[1..]))
  {
    var nulls, hit := Nulls(Gap(prev, entries[0].line)), [Run(Capped(entries[0].hits), false)];
    var later := Body(entries[0].line, entries[1..]);
    assert Lined(hit) == [Hits(Capped(entries[0].hits))] by {
      assert hit[1..] == [];
    }
    assert Body(prev, entries) == nulls + hit + later;
    hide Lined, Body, Nulls;
    LinedConcat(nulls + hit, later);
    LinedConcat(nulls, hit);
  }

  lemma SaysMore(lines: seq<LineState>, entries: seq<Entry>, blank: seq<LineState>)
    requires SaysAll(lines, 0, entries) && SaysOnly(lines, 0, entries) && AllBlank(blank)
    ensures SaysAll(lines + blank, 0, entries) && SaysOnly(lines + blank, 0, entries)
  {
    forall e | e in entries
      ensures Says(lines + blank, 0, e)
    {
      assert Says(lines, 0, e);
    }
  }

  /** The runs written for a report give each covered line its hits, cut off at 31 bits, and nothing to
      the lines between and behind. */
  lemma RunsAreLines(entries: seq<Entry>, lineCount: nat)
    requires Ascending(entries) && (entries != [] ==> 0 < entries[0].line)
    ensures var lines := Lined(Encoded(entries, lineCount));
            SaysAll(lines, 0, entries) && SaysOnly(lines, 0, entries)
  {
    var last, total := LastLine(0, entries), Total(entries, lineCount);
    BodySays(0, entries);
    var tail := Tail(last, total);
    LinedConcat(Body(0, entries), tail);
    if last < total {
      LinedNulls(total - last - 1);
    } else {
      assert Lined(tail) == [];
    }
    assert Encoded(entries, lineCount) == Body(0, entries) + tail && AllBlank(Lined(tail));
    hide Lined, Body, SaysAll, SaysOnly, Encoded, Tail, AllBlank, Ascending;
    SaysMore(Lined(Body(0, entries)), entries, Lined(tail));
  }

  /** The number of lines is the one the file has, unless coverage goes further. */
  lemma TotalMeans(entries: seq<Entry>, lineCount: nat)
    requires Ascending(entries) && lineCount < TWO32
    ensures var total := Total(entries, lineCount);
            && lineCount <= total && (forall e | e in entries :: e.line <= total)
            && (total == lineCount || HasLine(entries, total))
  {
    if entries != [] {
      assert entries[|entries| - 1] in entries;
    }
  }
}
