/**
 What is left of tokens and line ends that a grammar emits more than once: sorting brings those of
 one place together, and of equal neighbours one stays.
 */
module Doubles {
  import opened Sorting
  import opened SpanTree
  import opened LineBreaking
  import opened LineTokens
  import opened Highlighting

  // ---------------------------------------------------------------------------
  // Line ends

  /** Of the line ends at one offset the first one stays. */
  ghost predicate FirstAt(raw: seq<Endline>, e: Endline) {
    exists i | 0 <= i < |raw| :: raw[i] == e && forall j | 0 <= j < i :: raw[j].offset != e.offset
  }

  ghost function EndsAt(offset: nat): (p: Endline -> bool)
    ensures forall e :: p(e) <==> e.offset == offset
  {
    (e: Endline) => e.offset == offset
  }

  lemma EndsAreOrdered()
    ensures WeakOrder(EndsEarlier) && TiesOnly(EndsEarlier, SameEnd)
  {
  }

  lemma {:induction false} OneOfEqual(s: seq<Endline>, offset: nat)
    requires forall i | 0 <= i < |s| :: s[i].offset == offset
    ensures Unique(SameEnd, s) == if s == [] then [] else [s[0]]
    decreases |s|
  {
    if |s| >= 2 {
      var t := [s[0]] + s[2..];
      assert forall i | 0 <= i < |t| :: t[i] == if i == 0 then s[0] else s[i + 1];
      OneOfEqual(t, offset);
    }
  }

  lemma {:induction false} FirstOfFilter(raw: seq<Endline>, offset: nat)
    ensures var own := Filter(EndsAt(offset), raw);
            forall e :: own != [] && own[0] == e <==> e.offset == offset && FirstAt(raw, e)
    decreases raw
  {
    if raw == [] {
    } else {
      FirstOfFilter(raw[1..], offset);
      var own, later := Filter(EndsAt(offset), raw), Filter(EndsAt(offset), raw[1..]);
      forall e
        ensures own != [] && own[0] == e <==> e.offset == offset && FirstAt(raw, e)
      {
        FirstAtFront(raw, e);
      }
    }
  }

  lemma FirstAtFront(raw: seq<Endline>, e: Endline)
    requires raw != []
    ensures FirstAt(raw, e) <==> raw[0] == e || (raw[0].offset != e.offset && FirstAt(raw[1..], e))
  {
    if FirstAt(raw, e) && raw[0] != e {
      var i :| 0 <= i < |raw| && raw[i] == e && forall j | 0 <= j < i :: raw[j].offset != e.offset;
      assert raw[1..][i - 1] == e && forall j | 0 <= j < i - 1 :: raw[1..][j] == raw[j + 1];
    }
    if raw[0].offset != e.offset && FirstAt(raw[1..], e) {
      var i :| 0 <= i < |raw[1..]| && raw[1..][i] == e && forall j | 0 <= j < i :: raw[1..][j].offset != e.offset;
      assert raw[i + 1] == e && forall j | 0 < j < i + 1 :: raw[j] == raw[1..][j - 1];
    }
  }

  /** The line ends come out by ascending offset, one for each offset there is: the first one emitted. */
  lemma EndlinesOnce(raw: seq<Endline>)
    ensures var eols := SortedEndlines(raw);
            && (forall i, j | 0 <= i < j < |eols| :: eols[i].offset < eols[j].offset)
            && (forall e :: e in eols <==> FirstAt(raw, e))
            && (forall r | r in raw :: exists e | e in eols :: e.offset == r.offset)
  {
    var eols := SortedEndlines(raw);
    EndsAreOrdered();
    forall offset
      ensures var own := Filter(EndsAt(offset), raw);
              Filter(EndsAt(offset), eols) == if own == [] then [] else [own[0]]
    {
      OneAtOffset(raw, offset);
    }
    forall e
      ensures e in eols <==> FirstAt(raw, e)
    {
      FilterMember(EndsAt(e.offset), eols, e);
      FirstOfFilter(raw, e.offset);
    }
    forall r | r in raw
      ensures exists e | e in eols :: e.offset == r.offset
    {
      FilterMember(EndsAt(r.offset), raw, r);
      var kept := Filter(EndsAt(r.offset), eols);
      FilterMember(EndsAt(r.offset), eols, kept[0]);
    }
    EndlinesAscend(raw);
  }

  lemma OneAtOffset(raw: seq<Endline>, offset: nat)
    ensures var own := Filter(EndsAt(offset), raw);
            Filter(EndsAt(offset), SortedEndlines(raw)) == if own == [] then [] else [own[0]]
  {
    EndsAreOrdered();
    var p := EndsAt(offset);
    SortUniqueClass(EndsEarlier, SameEnd, p, raw);
    var own := Filter(p, raw);
    forall i | 0 <= i < |own|
      ensures own[i].offset == offset
    {
      FilterMember(p, raw, own[i]);
    }
    OneOfEqual(own, offset);
  }

  lemma EndlinesAscend(raw: seq<Endline>)
    ensures var eols := SortedEndlines(raw);
            forall i, j | 0 <= i < j < |eols| :: eols[i].offset < eols[j].offset
  {
    var eols := SortedEndlines(raw);
    EndsAreOrdered();
    SortOrdered(EndsEarlier, raw);
    UniqueOrdered(EndsEarlier, SameEnd, StableSort(EndsEarlier, raw));
    forall i, j | 0 <= i < j < |eols|
      ensures eols[i].offset < eols[j].offset
    {
      assert !EndsEarlier(eols[j], eols[i]);
      if eols[i].offset == eols[j].offset {
        OneAtOffset(raw, eols[i].offset);
        FilterTwo(EndsAt(eols[i].offset), eols, i, j);
      }
    }
  }

  // ---------------------------------------------------------------------------
  // Tokens

  predicate SamePlace(a: TokenT, b: TokenT) {
    a.start == b.start && a.stop == b.stop
  }

  ghost function PlaceOf(tok: TokenT): (p: TokenT -> bool)
    ensures forall t :: p(t) <==> SamePlace(t, tok)
  {
    (t: TokenT) => SamePlace(t, tok)
  }

  /** At each place the tokens come out as they were emitted there, of equal ones in a row only one. */
  lemma PlaceKeeps(raw: seq<TokenT>, tok: TokenT)
    ensures Filter(PlaceOf(tok), SortedTokens(raw)) == Unique(SameToken, Filter(PlaceOf(tok), raw))
  {
    BeforeIsWeakOrder();
    SortUniqueClass(Before, SameToken, PlaceOf(tok), raw);
  }

  /** Between two times the token is emitted, another kind is emitted for the same place. */
  ghost predicate Parted(raw: seq<TokenT>, tok: TokenT) {
    exists i, j, k :: PartedAt(raw, tok, i, j, k)
  }

  predicate PartedAt(raw: seq<TokenT>, tok: TokenT, i: int, j: int, k: int) {
    0 <= i < |raw| && raw[i] == tok && i < j && PartedOffAt(raw, tok, j, k)
  }

  /** The same, whatever is in front. */
  ghost predicate PartedOff(raw: seq<TokenT>, tok: TokenT) {
    exists j, k :: PartedOffAt(raw, tok, j, k)
  }

  predicate PartedOffAt(raw: seq<TokenT>, tok: TokenT, j: int, k: int) {
    0 <= j < k < |raw| && SamePlace(raw[j], tok) && raw[j] != tok && raw[k] == tok
  }

  lemma PartedFront(t: TokenT, rest: seq<TokenT>, tok: TokenT)
    ensures Parted([t] + rest, tok) <==> Parted(rest, tok) || (t == tok && PartedOff(rest, tok))
  {
    var raw := [t] + rest;
    if Parted(raw, tok) {
      var i, j, k :| PartedAt(raw, tok, i, j, k);
      assert PartedOffAt(rest, tok, j - 1, k - 1);
      assert i > 0 ==> PartedAt(rest, tok, i - 1, j - 1, k - 1);
    }
    if Parted(rest, tok) {
      var i, j, k :| PartedAt(rest, tok, i, j, k);
      assert PartedAt(raw, tok, i + 1, j + 1, k + 1);
    }
    if t == tok && PartedOff(rest, tok) {
      var j, k :| PartedOffAt(rest, tok, j, k);
      assert PartedAt(raw, tok, 0, j + 1, k + 1);
    }
  }

  lemma PartedOffFront(t: TokenT, rest: seq<TokenT>, tok: TokenT)
    ensures PartedOff([t] + rest, tok) <==> PartedOff(rest, tok) || (SamePlace(t, tok) && t != tok && tok in rest)
  {
    var raw := [t] + rest;
    if PartedOff(raw, tok) {
      var j, k :| PartedOffAt(raw, tok, j, k);
      assert rest[k - 1] == tok;
      assert j > 0 ==> PartedOffAt(rest, tok, j - 1, k - 1);
    }
    if PartedOff(rest, tok) {
      var j, k :| PartedOffAt(rest, tok, j, k);
      assert PartedOffAt(raw, tok, j + 1, k + 1);
    }
    if SamePlace(t, tok) && t != tok && tok in rest {
      var k :| 0 <= k < |rest| && rest[k] == tok;
      assert PartedOffAt(raw, tok, 0, k + 1);
    }
  }

  /** Only the tokens of its place matter. */
  lemma {:induction false} PartedInPlace(raw: seq<TokenT>, tok: TokenT)
    ensures var own := Filter(PlaceOf(tok), raw);
            (Parted(own, tok) <==> Parted(raw, tok)) && (PartedOff(own, tok) <==> PartedOff(raw, tok))
    decreases raw
  {
    if raw == [] {
    } else {
      var t, rest := raw[0], raw[1..];
      assert raw == [t] + rest;
      hide Parted, PartedOff;
      PartedInPlace(rest, tok);
      FilterFront(PlaceOf(tok), t, rest);
      FilterMember(PlaceOf(tok), rest, tok);
      PartedFront(t, rest, tok);
      PartedOffFront(t, rest, tok);
      PartedFront(t, Filter(PlaceOf(tok), rest), tok);
      PartedOffFront(t, Filter(PlaceOf(tok), rest), tok);
    }
  }

  /** In how many runs a token comes. */
  function Runs(own: seq<TokenT>, tok: TokenT): nat {
    if own == [] then 0
    else (if own[0] == tok && (|own| == 1 || own[1] != tok) then 1 else 0) + Runs(own[1..], tok)
  }

  lemma {:induction false} UniqueRuns(own: seq<TokenT>, tok: TokenT)
    ensures multiset(Unique(SameToken, own))[tok] == Runs(own, tok)
    decreases |own|
  {
    if own == [] {
    } else {
      var first, rest := own[0], own[1..];
      assert own == [first] + rest;
      UniqueRuns(rest, tok);
      if rest != [] && first == rest[0] {
        assert [own[0]] + own[2..] == rest;
      } else {
        FirstStays(SameToken, first, rest);
        InFront(first, Unique(SameToken, rest));
      }
    }
  }

  lemma {:induction false} RunsAreParted(own: seq<TokenT>, tok: TokenT)
    requires forall i | 0 <= i < |own| :: SamePlace(own[i], tok)
    ensures (Runs(own, tok) == 0 <==> tok !in own) && (Runs(own, tok) <= 1 <==> !Parted(own, tok))
    ensures tok in own ==> (!PartedOff(own, tok) <==> own[0] == tok && Runs(own, tok) == 1)
    decreases |own|
  {
    if own == [] {
    } else {
      var first, rest := own[0], own[1..];
      assert own == [first] + rest;
      hide Parted, PartedOff;
      RunsAreParted(rest, tok);
      PartedFront(first, rest, tok);
      PartedOffFront(first, rest, tok);
      if tok !in rest {
        NotThere(rest, tok);
      }
    }
  }

  lemma NotThere(rest: seq<TokenT>, tok: TokenT)
    requires tok !in rest
    ensures !Parted(rest, tok) && !PartedOff(rest, tok)
  {
  }

  lemma CountIsRuns(raw: seq<TokenT>, tok: TokenT)
    requires tok in raw
    ensures multiset(SortedTokens(raw))[tok] >= 1
    ensures multiset(SortedTokens(raw))[tok] == 1 <==> !Parted(raw, tok)
  {
    var own := Filter(PlaceOf(tok), raw);
    forall i | 0 <= i < |own|
      ensures SamePlace(own[i], tok)
    {
      FilterMember(PlaceOf(tok), raw, own[i]);
    }
    PlaceKeeps(raw, tok);
    FilterCount(PlaceOf(tok), SortedTokens(raw), tok);
    FilterMember(PlaceOf(tok), raw, tok);
    UniqueRuns(own, tok);
    RunsAreParted(own, tok);
    PartedInPlace(raw, tok);
  }

  /** No token is left twice, exactly if none is emitted again for a place behind another kind there. */
  lemma DoublesAreGone(raw: seq<TokenT>)
    ensures NoDoubles(SortedTokens(raw)) <==> forall tok | tok in raw :: !Parted(raw, tok)
  {
    SortedTokensFacts(raw);
    NoDoublesCount(SortedTokens(raw));
    forall tok | tok in raw
      ensures multiset(SortedTokens(raw))[tok] == 1 <==> !Parted(raw, tok)
    {
      CountIsRuns(raw, tok);
    }
  }

  /** Two kinds in turns on one place: the first one is shown twice, in and around the other. */
  lemma TurnsStayDoubled(start: nat, stop: nat, a: nat, b: nat)
    requires a != b
    ensures var x, y := TokenT(start, stop, a), TokenT(start, stop, b);
            SortedTokens([x, y, x]) == [x, y, x] && !NoDoubles(SortedTokens([x, y, x]))
  {
    var x, y := TokenT(start, stop, a), TokenT(start, stop, b);
    var raw := [x, y, x];
    assert raw[1..] == [y, x] && [y, x][1..] == [x] && [x][1..] == [];
    assert StableSort(Before, [x]) == Insert(Before, x, []) == [x];
    assert StableSort(Before, [y, x]) == Insert(Before, y, [x]) == [y, x];
    assert StableSort(Before, raw) == Insert(Before, x, [y, x]) == raw;
    assert Unique(SameToken, [y, x]) == [y] + Unique(SameToken, [x]);
    assert raw[0] == raw[2];
  }
}
