/**
 Coverage counters.  Every counter is an unsigned 32-bit number and addition sticks at the
 largest one, so a total is the true sum cut off there, whatever the order of the summands.
 */
module CoverageStats {
  import opened Sequences

  const MAX_U32: nat := 0xFFFF_FFFF

  type u32 = x: nat | x <= MAX_U32

  datatype Counts = Counts(relevant: u32, visited: u32)

  datatype Coverage = Coverage(linesTotal: u32, lines: Counts, functions: Counts, branches: Counts)

  datatype EntryStats = EntryStats(current: Coverage, previous: Coverage)

  const NO_COUNTS := Counts(0, 0)
  const NO_COVERAGE := Coverage(0, NO_COUNTS, NO_COUNTS, NO_COUNTS)
  const NO_STATS := EntryStats(NO_COVERAGE, NO_COVERAGE)

  function AddU32(lhs: u32, rhs: u32): u32 {
    if MAX_U32 - lhs < rhs then MAX_U32 else lhs + rhs
  }

  function AddCounts(lhs: Counts, rhs: Counts): Counts {
    Counts(AddU32(lhs.relevant, rhs.relevant), AddU32(lhs.visited, rhs.visited))
  }

  function AddCoverage(lhs: Coverage, rhs: Coverage): Coverage {
    Coverage(AddU32(lhs.linesTotal, rhs.linesTotal), AddCounts(lhs.lines, rhs.lines),
             AddCounts(lhs.functions, rhs.functions), AddCounts(lhs.branches, rhs.branches))
  }

  function Extend(lhs: EntryStats, rhs: EntryStats): EntryStats {
    EntryStats(AddCoverage(lhs.current, rhs.current), AddCoverage(lhs.previous, rhs.previous))
  }

  function Total(all: seq<EntryStats>): EntryStats {
    if all == [] then NO_STATS else Extend(all[0], Total(all[1..]))
  }

  // ---------------------------------------------------------------------------
  // Laws

  lemma CoverageLaws(a: Coverage, b: Coverage, c: Coverage)
    ensures AddCoverage(AddCoverage(a, b), c) == AddCoverage(a, AddCoverage(b, c))
    ensures AddCoverage(a, b) == AddCoverage(b, a)
    ensures AddCoverage(NO_COVERAGE, a) == a == AddCoverage(a, NO_COVERAGE)
  {
  }

  lemma ExtendLaws(a: EntryStats, b: EntryStats, c: EntryStats)
    ensures Extend(Extend(a, b), c) == Extend(a, Extend(b, c))
    ensures Extend(a, b) == Extend(b, a)
    ensures Extend(NO_STATS, a) == a == Extend(a, NO_STATS)
  {
    CoverageLaws(a.current, b.current, c.current);
    CoverageLaws(a.previous, b.previous, c.previous);
  }

  lemma {:induction false} TotalConcat(a: seq<EntryStats>, b: seq<EntryStats>)
    ensures Total(a + b) == Extend(Total(a), Total(b))
  {
    if a == [] {
      assert a + b == b;
      ExtendLaws(Total(b), NO_STATS, NO_STATS);
    } else {
      assert (a + b)[1..] == a[1..] + b;
      TotalConcat(a[1..], b);
      ExtendLaws(a[0], Total(a[1..]), Total(b));
    }
  }

  lemma TotalTakenOut(s: seq<EntryStats>, k: nat)
    requires k < |s|
    ensures Total(s) == Extend(s[k], Total(Without(s, k)))
  {
    Around(s, k);
    TotalConcat(s[..k], [s[k]] + s[k + 1..]);
    TotalConcat([s[k]], s[k + 1..]);
    TotalConcat(s[..k], s[k + 1..]);
    TotalOne(s[k]);
    hide Extend, Total;
    ExtendLaws(Total(s[..k]), s[k], Total(s[k + 1..]));
    ExtendLaws(s[k], Total(s[..k]), Total(s[k + 1..]));
  }

  lemma TotalOne(s: EntryStats)
    ensures Total([s]) == s
  {
    assert [s][1..] == [];
    ExtendLaws(s, NO_STATS, NO_STATS);
  }

  /** The total does not depend on the order. */
  lemma {:induction false} TotalOfPermutation(a: seq<EntryStats>, b: seq<EntryStats>)
    requires multiset(a) == multiset(b)
    ensures Total(a) == Total(b)
    decreases |a|
  {
    hide Total, Extend;
    assert |multiset(a)| == |a| && |multiset(b)| == |b|;
    if a == [] {
      assert b == [];
    } else {
      var k := Position(a[0], a, b);
      TakenOut(a, 0);
      TakenOut(b, k);
      Cancel(multiset(Without(a, 0)), multiset(Without(b, k)), a[0]);
      TotalOfPermutation(Without(a, 0), Without(b, k));
      TotalTakenOut(a, 0);
      TotalTakenOut(b, k);
    }
  }

  // ---------------------------------------------------------------------------
  // What a total is, counter by counter

  function Counters(s: Coverage): seq<u32> {
    [s.linesTotal, s.lines.relevant, s.lines.visited, s.functions.relevant, s.functions.visited,
     s.branches.relevant, s.branches.visited]
  }

  function AllCounters(s: EntryStats): seq<u32> {
    Counters(s.current) + Counters(s.previous)
  }

  ghost function TrueSum(all: seq<EntryStats>, k: nat): nat
    requires k < 14
  {
    if all == [] then 0 else AllCounters(all[0])[k] + TrueSum(all[1..], k)
  }

  lemma CountersAdd(a: Coverage, b: Coverage, k: nat)
    requires k < 7
    ensures Counters(AddCoverage(a, b))[k] == AddU32(Counters(a)[k], Counters(b)[k])
  {
  }

  lemma AllCountersAdd(a: EntryStats, b: EntryStats, k: nat)
    requires k < 14
    ensures AllCounters(Extend(a, b))[k] == AddU32(AllCounters(a)[k], AllCounters(b)[k])
  {
    if k < 7 {
      CountersAdd(a.current, b.current, k);
    } else {
      CountersAdd(a.previous, b.previous, k - 7);
    }
  }

  /** Every counter of a total is the true sum of that counter, or the largest number if that is less. */
  lemma {:induction false} TotalIsCappedSum(all: seq<EntryStats>, k: nat)
    requires k < 14
    ensures AllCounters(Total(all))[k] == if TrueSum(all, k) <= MAX_U32 then TrueSum(all, k) else MAX_U32
  {
    if all == [] {
    } else {
      TotalIsCappedSum(all[1..], k);
      AllCountersAdd(all[0], Total(all[1..]), k);
    }
  }
}
