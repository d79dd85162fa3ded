/**
 What the reader of a highlighted line sees: every byte of the line under exactly the kinds of the
 tokens that covered it in the whole file.
 */
module HighlightedLines {
  import opened SpanTree
  import opened SpanTokens
  import opened Sorting
  import opened LineBreaking
  import opened LineTokens
  import opened Highlighting
  import opened Doubles

  // ---------------------------------------------------------------------------
  // Choosing tokens by kind, and reading off the kinds on a byte

  ghost function Shown(): (f: nat -> bool)
    ensures forall k :: f(k) <==> k != WHITESPACE
  {
    k => k != WHITESPACE
  }

  ghost function Only(kind: nat): (f: nat -> bool)
    ensures forall k :: f(k) <==> k == kind
  {
    k => k == kind
  }

  function KindsOf(tokens: seq<TokenT>): (r: seq<nat>)
    ensures |r| == |tokens| && forall i | 0 <= i < |r| :: r[i] == tokens[i].kind
  {
    if tokens == [] then [] else [tokens[0].kind] + KindsOf(tokens[1..])
  }

  lemma {:induction false} KindsAreFiltered(tokens: seq<TokenT>, y: int)
    ensures KindsAt(Visible(tokens), y) == KindsOf(Filter(At(y, Shown()), tokens))
  {
    if tokens == [] {
    } else {
      KindsAreFiltered(tokens[1..], y);
      var head := if tokens[0].kind == WHITESPACE then [] else [tokens[0]];
      KindsAtConcat(head, Visible(tokens[1..]), y);
      assert head != [] ==> head[1..] == [];
    }
  }

  lemma {:induction false} FilterVisible(tokens: seq<TokenT>, y: int)
    ensures Filter(At(y, Shown()), tokens) == Filter(At(y, Shown()), Visible(tokens))
  {
    if tokens == [] {
    } else {
      FilterVisible(tokens[1..], y);
      var head := if tokens[0].kind == WHITESPACE then [] else [tokens[0]];
      FilterConcat(At(y, Shown()), head, Visible(tokens[1..]));
      assert head != [] ==> head[1..] == [];
    }
  }

  lemma {:induction false} CoveredIsFiltered(tokens: seq<TokenT>, kind: nat, y: int)
    ensures Covered(tokens, kind, y) <==> Filter(At(y, Only(kind)), tokens) != []
  {
    if tokens == [] {
    } else {
      CoveredIsFiltered(tokens[1..], kind, y);
      assert tokens == [tokens[0]] + tokens[1..];
      CoveredConcat([tokens[0]], tokens[1..], kind, y);
      CoveredOne(tokens[0], kind, y);
    }
  }

  lemma {:induction false} VisibleMembers(tokens: seq<TokenT>)
    ensures forall t :: t in Visible(tokens) <==> t in tokens && t.kind != WHITESPACE
  {
    if tokens == [] {
    } else {
      VisibleMembers(tokens[1..]);
      assert tokens == [tokens[0]] + tokens[1..];
    }
  }

  // ---------------------------------------------------------------------------
  // Shifting

  lemma ShiftInside(t: TokenT, lo: nat, hi: nat)
    requires InLine(t, lo, hi)
    ensures Shift(t, lo) == TokenT(t.start - lo, t.stop - lo, t.kind)
  {
  }

  lemma ShiftedFits(tokens: seq<TokenT>, lo: nat, hi: nat)
    requires FitsWithin(tokens, lo, hi)
    ensures FitsWithin(Shifted(tokens, lo), 0, hi - lo)
  {
    forall i | 0 <= i < |tokens|
      ensures InLine(Shifted(tokens, lo)[i], 0, hi - lo)
    {
      assert tokens[i] in tokens;
      ShiftInside(tokens[i], lo, hi);
    }
  }

  lemma {:induction false} ShiftedVisible(tokens: seq<TokenT>, lo: nat)
    ensures Visible(Shifted(tokens, lo)) == Shifted(Visible(tokens), lo)
  {
    if tokens == [] {
    } else {
      ShiftedVisible(tokens[1..], lo);
      assert Shifted(tokens, lo)[1..] == Shifted(tokens[1..], lo);
    }
  }

  lemma ShiftedCovers(tokens: seq<TokenT>, lo: nat, hi: nat, kind: nat, x: int)
    requires FitsWithin(tokens, lo, hi)
    ensures Covered(Shifted(tokens, lo), kind, x) <==> Covered(tokens, kind, lo + x)
  {
    if Covered(tokens, kind, lo + x) {
      var t :| t in tokens && t.kind == kind && t.Covers(lo + x);
      var i :| 0 <= i < |tokens| && tokens[i] == t;
      ShiftInside(t, lo, hi);
      assert Shifted(tokens, lo)[i] in Shifted(tokens, lo);
    }
    if Covered(Shifted(tokens, lo), kind, x) {
      var u :| u in Shifted(tokens, lo) && u.kind == kind && u.Covers(x);
      var i :| 0 <= i < |tokens| && Shifted(tokens, lo)[i] == u;
      assert tokens[i] in tokens;
      ShiftInside(tokens[i], lo, hi);
    }
  }

  lemma {:induction false} ShiftedKinds(tokens: seq<TokenT>, lo: nat, hi: nat, x: int)
    requires FitsWithin(tokens, lo, hi)
    ensures KindsAt(Shifted(tokens, lo), x) == KindsAt(tokens, lo + x)
  {
    if tokens == [] {
    } else {
      assert tokens[0] in tokens && forall u | u in tokens[1..] :: u in tokens;
      ShiftInside(tokens[0], lo, hi);
      ShiftedKinds(tokens[1..], lo, hi, x);
      assert Shifted(tokens, lo)[1..] == Shifted(tokens[1..], lo);
    }
  }

  predicate FitsWithin(tokens: seq<TokenT>, lo: int, hi: int) {
    forall t | t in tokens :: InLine(t, lo, hi)
  }

  // ---------------------------------------------------------------------------
  // The k-th line

  /** The group of pieces handed to the k-th line, which goes from `lo` to `hi`. */
  ghost predicate LineOf(eols: seq<Endline>, pieces: seq<TokenT>, total: nat, out: LineOut, group: seq<TokenT>, lo: nat, hi: nat) {
    && lo <= hi <= total
    && out == LineOut(lo, hi - lo, Shifted(Merged(group), lo))
    && IsLine(0, eols, total, lo, hi)
    && Sorted(group) && FitsWithin(group, lo, hi)
    && (forall p | p in group :: p in pieces)
  }

  /** On the bytes of a line the group holds every piece there is. */
  ghost predicate SameBytes(group: seq<TokenT>, pieces: seq<TokenT>, lo: nat, hi: nat) {
    forall y, chosen {:trigger At(y, chosen)} | lo <= y < hi :: Filter(At(y, chosen), group) == Filter(At(y, chosen), pieces)
  }

  lemma LineExists(eols: seq<Endline>, pieces: seq<TokenT>, total: nat, k: nat)
    returns (group: seq<TokenT>, lo: nat, hi: nat)
    requires Terminated(0, eols, total) && Sorted(pieces)
    requires forall p {:trigger OnSomeLine(p, 0, eols, total)} | p in pieces :: OnSomeLine(p, 0, eols, total)
    requires k < |Lines(0, eols, total)|
    ensures LineOf(eols, pieces, total, HandedOut(pieces, Lines(0, eols, total))[k], group, lo, hi)
    ensures SameBytes(group, pieces, lo, hi)
  {
    hide Filter, HandedOut, Groups, Lines, Terminated, Sorted;
    var lines := Lines(0, eols, total);
    HandedOutAt(pieces, lines, k);
    SweepDelivers(pieces, 0, eols, total, k);
    LinesAreLines(0, eols, total, k);
    group, lo, hi := Groups(pieces, lines)[k], lines[k].offset, lines[k].offset + lines[k].size;
    LineBounds(0, eols, total, lo, hi);
    DeliveredIsLine(eols, pieces, total, group, lines[k]);
  }

  lemma DeliveredIsLine(eols: seq<Endline>, pieces: seq<TokenT>, total: nat, group: seq<TokenT>, line: Endline)
    requires Delivers(group, line, pieces) && line.offset + line.size <= total
    requires IsLine(0, eols, total, line.offset, line.offset + line.size)
    ensures LineOf(eols, pieces, total, Output(group, line), group, line.offset, line.offset + line.size)
    ensures SameBytes(group, pieces, line.offset, line.offset + line.size)
  {
  }

  lemma SameByte(group: seq<TokenT>, pieces: seq<TokenT>, lo: nat, hi: nat, y: int, chosen: nat -> bool)
    requires SameBytes(group, pieces, lo, hi) && lo <= y < hi
    ensures Filter(At(y, chosen), group) == Filter(At(y, chosen), pieces)
  {
  }

  lemma SameCover(group: seq<TokenT>, pieces: seq<TokenT>, kind: nat, y: int)
    requires Filter(At(y, Only(kind)), group) == Filter(At(y, Only(kind)), pieces)
    ensures Covered(group, kind, y) <==> Covered(pieces, kind, y)
  {
    CoveredIsFiltered(group, kind, y);
    CoveredIsFiltered(pieces, kind, y);
  }

  lemma SameShown(group: seq<TokenT>, pieces: seq<TokenT>, y: int)
    requires Filter(At(y, Shown()), group) == Filter(At(y, Shown()), pieces)
    ensures KindsAt(Visible(group), y) == KindsAt(Visible(pieces), y)
  {
    KindsAreFiltered(group, y);
    KindsAreFiltered(pieces, y);
  }

  /** Merging and shifting keep what a line covers. */
  lemma DeliveredCover(group: seq<TokenT>, lo: nat, hi: nat, kind: nat, x: int)
    requires FitsWithin(group, lo, hi)
    ensures Covered(Shifted(Merged(group), lo), kind, x) <==> Covered(group, kind, lo + x)
  {
    MergedFacts(group, lo, hi);
    ShiftedCovers(Merged(group), lo, hi, kind, x);
    MergedCovers(group, kind, lo + x);
  }

  lemma CoverAt(group: seq<TokenT>, pieces: seq<TokenT>, lo: nat, hi: nat, kind: nat, x: int)
    requires FitsWithin(group, lo, hi) && SameBytes(group, pieces, lo, hi) && 0 <= x < hi - lo
    ensures Covered(Shifted(Merged(group), lo), kind, x) <==> Covered(pieces, kind, lo + x)
  {
    DeliveredCover(group, lo, hi, kind, x);
    SameByte(group, pieces, lo, hi, lo + x, Only(kind));
    SameCover(group, pieces, kind, lo + x);
  }

  /** The pieces cover what the tokens covered. */
  lemma PiecesCover(eols: seq<Endline>, tokens: seq<TokenT>, pieces: seq<TokenT>, total: nat, lo: nat, hi: nat, kind: nat, y: int)
    requires Prepared(eols, tokens, pieces, total) && IsLine(0, eols, total, lo, hi) && lo <= y < hi
    ensures Covered(pieces, kind, y) <==> Covered(tokens, kind, y)
  {
    var broken := Broken(tokens, eols);
    BrokenAt(tokens, 0, eols, total, lo, hi, y, Only(kind));
    CoveredIsFiltered(broken, kind, y);
    CoveredIsFiltered(tokens, kind, y);
    SameMembers(pieces, broken, kind, y);
  }

  lemma SameMembers(pieces: seq<TokenT>, broken: seq<TokenT>, kind: nat, y: int)
    requires pieces == StableSort(Before, broken)
    ensures Covered(pieces, kind, y) <==> Covered(broken, kind, y)
  {
    SortKeeps(Before, broken);
    forall t
      ensures t in pieces <==> t in broken
    {
      assert t in pieces <==> t in multiset(pieces);
      assert t in broken <==> t in multiset(broken);
    }
  }

  /** What the lines handed out cover, byte by byte. */
  ghost predicate CoversAlike(out: LineOut, tokens: seq<TokenT>) {
    forall x: int, kind | 0 <= x < out.length :: Covered(out.tokens, kind, x) <==> Covered(tokens, kind, out.start + x)
  }

  /** On the bytes of a line both cover the same. */
  ghost predicate CoverSame(pieces: seq<TokenT>, tokens: seq<TokenT>, lo: nat, hi: nat) {
    forall y: int, kind | lo <= y < hi :: Covered(pieces, kind, y) <==> Covered(tokens, kind, y)
  }

  lemma AllPiecesCover(eols: seq<Endline>, tokens: seq<TokenT>, pieces: seq<TokenT>, total: nat, lo: nat, hi: nat)
    requires Prepared(eols, tokens, pieces, total) && IsLine(0, eols, total, lo, hi)
    ensures CoverSame(pieces, tokens, lo, hi)
  {
    forall y: int, kind | lo <= y < hi
      ensures Covered(pieces, kind, y) <==> Covered(tokens, kind, y)
    {
      PiecesCover(eols, tokens, pieces, total, lo, hi, kind, y);
    }
  }

  lemma GroupCovers(group: seq<TokenT>, pieces: seq<TokenT>, tokens: seq<TokenT>, lo: nat, hi: nat, out: LineOut)
    requires lo <= hi && out == LineOut(lo, hi - lo, Shifted(Merged(group), lo))
    requires FitsWithin(group, lo, hi) && SameBytes(group, pieces, lo, hi) && CoverSame(pieces, tokens, lo, hi)
    ensures CoversAlike(out, tokens)
  {
    forall x: int, kind | 0 <= x < out.length
      ensures Covered(out.tokens, kind, x) <==> Covered(tokens, kind, out.start + x)
    {
      CoverAt(group, pieces, lo, hi, kind, x);
      var y := lo + x;
      assert Covered(pieces, kind, y) <==> Covered(tokens, kind, y);
    }
  }

  lemma LineCovers(eols: seq<Endline>, tokens: seq<TokenT>, pieces: seq<TokenT>, total: nat, out: LineOut,
                   group: seq<TokenT>, lo: nat, hi: nat)
    requires Prepared(eols, tokens, pieces, total) && LineOf(eols, pieces, total, out, group, lo, hi)
    requires SameBytes(group, pieces, lo, hi)
    ensures CoversAlike(out, tokens)
  {
    AllPiecesCover(eols, tokens, pieces, total, lo, hi);
    GroupCovers(group, pieces, tokens, lo, hi, out);
  }

  lemma LineFits(eols: seq<Endline>, pieces: seq<TokenT>, total: nat, out: LineOut, group: seq<TokenT>, lo: nat, hi: nat)
    requires LineOf(eols, pieces, total, out, group, lo, hi)
    ensures FitsWithin(out.tokens, 0, out.length) && IsLine(0, eols, total, out.start, out.start + out.length)
  {
    MergedFacts(group, lo, hi);
    ShiftedFits(Merged(group), lo, hi);
  }

  /** Every token of a line lies on it, and a byte of the line is covered by a kind exactly if it
      was covered by that kind in the file. */
  lemma LineKeepsCoverage(endlines: seq<Endline>, raw: seq<TokenT>, total: nat, k: nat)
    requires Grammatical(endlines, raw, total)
    requires k < |ExpectedLines(endlines, raw, total)|
    ensures var out := ExpectedLines(endlines, raw, total)[k];
            && FitsWithin(out.tokens, 0, out.length)
            && IsLine(0, SortedEndlines(endlines)[1..], total, out.start, out.start + out.length)
            && CoversAlike(out, raw)
  {
    hide Covered, IsLine, FitsWithin, SameBytes, CoversAlike, HandedOut, Lines, SortedTokens, SortedPieces;
    var eols, tokens, pieces := SortedEndlines(endlines)[1..], SortedTokens(raw), SortedPieces(endlines, raw);
    Prepare(endlines, raw, total);
    var group, lo, hi := LineExists(eols, pieces, total, k);
    var out := ExpectedLines(endlines, raw, total)[k];
    LineFits(eols, pieces, total, out, group, lo, hi);
    LineCovers(eols, tokens, pieces, total, out, group, lo, hi);
    RawCovers(out, tokens, raw);
  }

  lemma RawCovers(out: LineOut, tokens: seq<TokenT>, raw: seq<TokenT>)
    requires CoversAlike(out, tokens) && tokens == SortedTokens(raw)
    ensures CoversAlike(out, raw)
  {
    SortedTokensFacts(raw);
    forall x: int, kind | 0 <= x < out.length
      ensures Covered(out.tokens, kind, x) <==> Covered(raw, kind, out.start + x)
    {
      assert Covered(tokens, kind, out.start + x) <==> Covered(raw, kind, out.start + x);
    }
  }

  // ---------------------------------------------------------------------------
  // Nesting survives, and so does the order of the kinds

  predicate Compatible(t: TokenT, u: TokenT) {
    t.stop <= u.start || u.stop <= t.start || t.Inside(u) || u.Inside(t)
  }

  lemma NestedIsCompatible(tokens: seq<TokenT>)
    requires Sorted(tokens) && Nested(tokens)
    ensures forall t, u | t in tokens && u in tokens :: Compatible(t, u)
  {
    forall t, u | t in tokens && u in tokens
      ensures Compatible(t, u)
    {
      var i :| 0 <= i < |tokens| && tokens[i] == t;
      var j :| 0 <= j < |tokens| && tokens[j] == u;
    }
  }

  lemma CompatibleClips(t: TokenT, u: TokenT, p: TokenT, q: TokenT, lo: nat, hi: nat)
    requires Compatible(t, u) && InLine(p, lo, hi) && InLine(q, lo, hi) && InOrder(p, q)
    requires p == Clip(t, lo, hi) && q == Clip(u, lo, hi)
    ensures NotCrossing(p, q)
  {
  }

  /** Two pieces on one line come from that line. */
  lemma {:induction false} OneLine(
    p: TokenT, base: nat, eols: seq<Endline>, total: nat, lo: nat, hi: nat, lo': nat, hi': nat)
    requires Terminated(base, eols, total)
    requires IsLine(base, eols, total, lo, hi) && InLine(p, lo, hi)
    requires IsLine(base, eols, total, lo', hi') && InLine(p, lo', hi')
    ensures lo == lo' && hi == hi'
    decreases eols
  {
    TotalBound(base, eols, total);
    if eols != [] {
      var later, later' := IsLine(eols[0].offset, eols[1..], total, lo, hi), IsLine(eols[0].offset, eols[1..], total, lo', hi');
      if later {
        LineBounds(eols[0].offset, eols[1..], total, lo, hi);
      }
      if later' {
        LineBounds(eols[0].offset, eols[1..], total, lo', hi');
      }
      if later && later' {
        OneLine(p, eols[0].offset, eols[1..], total, lo, hi, lo', hi');
      }
    }
  }

  lemma GroupNested(eols: seq<Endline>, tokens: seq<TokenT>, pieces: seq<TokenT>, total: nat, out: LineOut,
                    group: seq<TokenT>, lo: nat, hi: nat)
    requires Prepared(eols, tokens, pieces, total) && LineOf(eols, pieces, total, out, group, lo, hi)
    requires Nested(Visible(tokens))
    ensures Sorted(Visible(group)) && Nested(Visible(group))
  {
    var all, shown := Visible(tokens), Visible(group);
    VisibleIsFilter(tokens);
    VisibleIsFilter(group);
    FilterSortedNested(IsShown, tokens);
    FilterSortedNested(IsShown, group);
    NestedIsCompatible(all);
    VisibleMembers(group);
    VisibleMembers(tokens);
    forall i, j | 0 <= i < j < |shown|
      ensures NotCrossing(shown[i], shown[j])
    {
      var t := Origin(shown[i], tokens, eols, total, lo, hi);
      var u := Origin(shown[j], tokens, eols, total, lo, hi);
      assert InOrder(shown[i], shown[j]);
      CompatibleClips(t, u, shown[i], shown[j], lo, hi);
    }
  }

  lemma Origin(p: TokenT, tokens: seq<TokenT>, eols: seq<Endline>, total: nat, lo: nat, hi: nat) returns (t: TokenT)
    requires Terminated(0, eols, total) && PartOfSome(p, tokens, 0, eols, total)
    requires IsLine(0, eols, total, lo, hi) && InLine(p, lo, hi)
    ensures t in tokens && p == Clip(t, lo, hi)
  {
    t :| t in tokens && PartOf(p, t, 0, eols, total);
    var lo': nat, hi': nat :| IsLine(0, eols, total, lo', hi') && InLine(p, lo', hi') && p == Clip(t, lo', hi');
    OneLine(p, 0, eols, total, lo, hi, lo', hi');
  }

  predicate IsShown(t: TokenT) {
    t.kind != WHITESPACE
  }

  lemma {:induction false} VisibleIsFilter(tokens: seq<TokenT>)
    ensures Visible(tokens) == Filter(IsShown, tokens)
  {
    if tokens == [] {
    } else {
      VisibleIsFilter(tokens[1..]);
    }
  }

  /** On every byte of a line the pieces show the kinds of the file's tokens, in the same order. */
  lemma PiecesShow(eols: seq<Endline>, tokens: seq<TokenT>, pieces: seq<TokenT>, total: nat, lo: nat, hi: nat, y: int)
    requires Prepared(eols, tokens, pieces, total) && Nested(Visible(tokens))
    requires IsLine(0, eols, total, lo, hi) && lo <= y < hi
    ensures KindsAt(Visible(pieces), y) == KindsAt(Visible(tokens), y)
  {
    hide KindsAt, Visible, Filter, StableSort, Broken, Clips, KindsOf, Sorted, Nested, IsLine, Terminated;
    var p := At(y, Shown());
    var broken, chosen := Broken(tokens, eols), Filter(p, tokens);
    BrokenAt(tokens, 0, eols, total, lo, hi, y, Shown());
    FilterVisible(tokens, y);
    FilterSortedNested(p, tokens);
    FilterSortedNested(p, Visible(tokens));
    FilterMembers(p, tokens);
    ClipsOrdered(chosen, lo, hi, y);
    SortFilter(Before, p, broken);
    KindsAreFiltered(pieces, y);
    KindsAreFiltered(tokens, y);
    ClipsKeepKinds(chosen, lo, hi);
  }

  lemma ClipsKeepKinds(tokens: seq<TokenT>, lo: nat, hi: nat)
    requires lo <= hi
    ensures KindsOf(Clips(tokens, lo, hi)) == KindsOf(tokens)
  {
  }

  /** The kinds that cover the x-th byte behind an offset. */
  function KindsFrom(tokens: seq<TokenT>, offset: nat, x: int): seq<nat> {
    KindsAt(tokens, offset + x)
  }

  ghost predicate ShowsAlike(out: LineOut, shown: seq<TokenT>) {
    forall x: int | 0 <= x < out.length :: KindsAt(Visible(out.tokens), x) == KindsFrom(shown, out.start, x)
  }

  ghost predicate KindsSame(pieces: seq<TokenT>, tokens: seq<TokenT>, lo: nat, hi: nat) {
    forall y: int | lo <= y < hi :: KindsAt(Visible(pieces), y) == KindsAt(Visible(tokens), y)
  }

  lemma AllPiecesShow(eols: seq<Endline>, tokens: seq<TokenT>, pieces: seq<TokenT>, total: nat, lo: nat, hi: nat)
    requires Prepared(eols, tokens, pieces, total) && Nested(Visible(tokens)) && IsLine(0, eols, total, lo, hi)
    ensures KindsSame(pieces, tokens, lo, hi)
  {
    forall y: int | lo <= y < hi
      ensures KindsAt(Visible(pieces), y) == KindsAt(Visible(tokens), y)
    {
      PiecesShow(eols, tokens, pieces, total, lo, hi, y);
    }
  }

  lemma KindsOnByte(group: seq<TokenT>, pieces: seq<TokenT>, lo: nat, hi: nat, x: int)
    requires FitsWithin(group, lo, hi) && SameBytes(group, pieces, lo, hi) && 0 <= x < hi - lo
    ensures KindsAt(Visible(Shifted(Merged(group), lo)), x) == KindsAt(Visible(pieces), lo + x)
  {
    hide KindsAt, Visible, Shifted, Merged, SameBytes, FitsWithin;
    DeliveredKinds(group, lo, hi, x);
    SameByte(group, pieces, lo, hi, lo + x, Shown());
    SameShown(group, pieces, lo + x);
  }

  lemma GroupKinds(group: seq<TokenT>, pieces: seq<TokenT>, tokens: seq<TokenT>, lo: nat, hi: nat, out: LineOut)
    requires lo <= hi && out == LineOut(lo, hi - lo, Shifted(Merged(group), lo))
    requires FitsWithin(group, lo, hi) && SameBytes(group, pieces, lo, hi) && KindsSame(pieces, tokens, lo, hi)
    ensures ShowsAlike(out, Visible(tokens))
  {
    hide KindsAt, Visible, Shifted, Merged, SameBytes, FitsWithin;
    forall x: int | 0 <= x < out.length
      ensures KindsAt(Visible(out.tokens), x) == KindsFrom(Visible(tokens), out.start, x)
    {
      KindsOnByte(group, pieces, lo, hi, x);
      var y := lo + x;
      assert KindsAt(Visible(pieces), y) == KindsAt(Visible(tokens), y);
    }
  }

  lemma LineKinds(eols: seq<Endline>, tokens: seq<TokenT>, pieces: seq<TokenT>, total: nat, out: LineOut,
                  group: seq<TokenT>, lo: nat, hi: nat)
    requires Prepared(eols, tokens, pieces, total) && LineOf(eols, pieces, total, out, group, lo, hi)
    requires SameBytes(group, pieces, lo, hi) && Nested(Visible(tokens))
    ensures ShowsAlike(out, Visible(tokens))
  {
    AllPiecesShow(eols, tokens, pieces, total, lo, hi);
    GroupKinds(group, pieces, tokens, lo, hi, out);
  }

  /** The visible tokens of a line are sorted, nested and inside the line, and every byte shows the
      kinds that covered it in the file, outermost first. */
  lemma LineKeepsKinds(endlines: seq<Endline>, raw: seq<TokenT>, total: nat, k: nat)
    requires Grammatical(endlines, raw, total)
    requires k < |ExpectedLines(endlines, raw, total)| && Nested(Visible(SortedTokens(raw)))
    ensures var out := ExpectedLines(endlines, raw, total)[k];
            var shown := Visible(out.tokens);
            && Sorted(shown) && Nested(shown) && FitsWithin(shown, 0, out.length) && out.start + out.length <= total
            && ShowsAlike(out, Visible(SortedTokens(raw)))
  {
    var eols, tokens, pieces := SortedEndlines(endlines)[1..], SortedTokens(raw), SortedPieces(endlines, raw);
    Prepare(endlines, raw, total);
    var group, lo, hi := LineExists(eols, pieces, total, k);
    var out := ExpectedLines(endlines, raw, total)[k];
    GroupNested(eols, tokens, pieces, total, out, group, lo, hi);
    DeliveredShape(group, lo, hi);
    LineKinds(eols, tokens, pieces, total, out, group, lo, hi);
  }

  /** Merging and shifting keep what a line shows, and its order. */
  lemma DeliveredShape(group: seq<TokenT>, lo: nat, hi: nat)
    requires FitsWithin(group, lo, hi) && Sorted(Visible(group)) && Nested(Visible(group))
    ensures var shown := Visible(Shifted(Merged(group), lo));
            Sorted(shown) && Nested(shown) && FitsWithin(shown, 0, hi - lo)
  {
    MergedFacts(group, lo, hi);
    ShiftedVisible(Merged(group), lo);
    VisibleMembers(group);
    ShiftedFits(Visible(group), lo, hi);
    ShiftedOrder(Visible(group), lo, hi);
  }

  lemma DeliveredKinds(group: seq<TokenT>, lo: nat, hi: nat, x: int)
    requires FitsWithin(group, lo, hi)
    ensures KindsAt(Visible(Shifted(Merged(group), lo)), x) == KindsAt(Visible(group), lo + x)
  {
    MergedFacts(group, lo, hi);
    ShiftedVisible(Merged(group), lo);
    VisibleMembers(group);
    ShiftedKinds(Visible(group), lo, hi, x);
  }

  lemma ShiftedOrder(tokens: seq<TokenT>, lo: nat, hi: nat)
    requires FitsWithin(tokens, lo, hi) && Sorted(tokens) && Nested(tokens)
    ensures Sorted(Shifted(tokens, lo)) && Nested(Shifted(tokens, lo))
  {
    var r := Shifted(tokens, lo);
    forall i, j | 0 <= i < j < |r|
      ensures InOrder(r[i], r[j]) && NotCrossing(r[i], r[j])
    {
      assert tokens[i] in tokens && tokens[j] in tokens;
      ShiftInside(tokens[i], lo, hi);
      ShiftInside(tokens[j], lo, hi);
      assert InOrder(tokens[i], tokens[j]) && NotCrossing(tokens[i], tokens[j]);
    }
    PairsAreOrder(r);
  }

  lemma PairsAreOrder(r: seq<TokenT>)
    requires forall i, j | 0 <= i < j < |r| :: InOrder(r[i], r[j]) && NotCrossing(r[i], r[j])
    ensures Sorted(r) && Nested(r)
  {
    forall i, j | 0 <= i < j < |r|
      ensures r[i].stop <= r[j].start || r[j].stop <= r[i].stop
    {
      assert NotCrossing(r[i], r[j]);
    }
    forall i, j | 0 <= i < j < |r|
      ensures r[i].start <= r[j].start && (r[i].start == r[j].start ==> r[i].stop >= r[j].stop)
    {
      assert InOrder(r[i], r[j]);
    }
  }

  // ---------------------------------------------------------------------------
  // What a byte shows, in terms of the tokens that the grammar emits

  /** The kinds of all visible tokens on a byte, of each token once, outermost first. */
  ghost predicate IsStack(kinds: seq<nat>, raw: seq<TokenT>, y: int) {
    exists toks :: KindsOf(toks) == kinds && IsStackOf(toks, raw, y)
  }

  ghost predicate IsStackOf(toks: seq<TokenT>, raw: seq<TokenT>, y: int) {
    Sorted(toks) && NoDoubles(toks) && forall t :: t in toks <==> t in raw && t.kind != WHITESPACE && t.Covers(y)
  }

  /** The tokens that a byte shows, as they are left by sorting. */
  lemma ShownAt(raw: seq<TokenT>, y: int)
    ensures var toks := Filter(At(y, Shown()), SortedTokens(raw));
            && KindsAt(Visible(SortedTokens(raw)), y) == KindsOf(toks) && Sorted(toks)
            && forall t :: t in toks <==> t in raw && t.kind != WHITESPACE && t.Covers(y)
  {
    var tokens := SortedTokens(raw);
    SortedTokensFacts(raw);
    KindsAreFiltered(tokens, y);
    FilterSortedNested(At(y, Shown()), tokens);
    hide SortedTokens, KindsAt, Visible;
    forall t
      ensures t in Filter(At(y, Shown()), tokens) <==> t in raw && t.kind != WHITESPACE && t.Covers(y)
    {
      FilterMember(At(y, Shown()), tokens, t);
    }
  }

  /** A token that is not emitted in turns with others of its place is shown once. */
  lemma ShownOnce(raw: seq<TokenT>, y: int, t: TokenT)
    requires t in raw && t.kind != WHITESPACE && t.Covers(y)
    ensures multiset(Filter(At(y, Shown()), SortedTokens(raw)))[t] == 1 <==> !Parted(raw, t)
    ensures multiset(Filter(At(y, Shown()), SortedTokens(raw)))[t] >= 1
  {
    FilterCount(At(y, Shown()), SortedTokens(raw), t);
    CountIsRuns(raw, t);
  }

  lemma StackAt(raw: seq<TokenT>, y: int)
    ensures IsStack(KindsAt(Visible(SortedTokens(raw)), y), raw, y)
            <==> forall t | t in raw && t.kind != WHITESPACE && t.Covers(y) :: !Parted(raw, t)
  {
    var toks := Filter(At(y, Shown()), SortedTokens(raw));
    ShownAt(raw, y);
    hide SortedTokens, KindsAt, Visible, Parted, At, Shown, Filter, Sorted;
    forall t | t in toks
      ensures multiset(toks)[t] == 1 <==> !Parted(raw, t)
    {
      ShownOnce(raw, y, t);
    }
    NoDoublesCount(toks);
    hide NoDoubles;
    assert NoDoubles(toks) <==> forall t | t in toks :: !Parted(raw, t);
    if NoDoubles(toks) {
      assert IsStackOf(toks, raw, y);
    }
    if IsStack(KindsOf(toks), raw, y) {
      var own :| KindsOf(own) == KindsOf(toks) && IsStackOf(own, raw, y);
      SameLength(own, toks);
    }
  }

  lemma SameLength(own: seq<TokenT>, toks: seq<TokenT>)
    requires NoDoubles(own) && |own| == |toks| && forall t :: t in own <==> t in toks
    ensures NoDoubles(toks)
  {
    NoDoublesCount(own);
    NoDoublesCount(toks);
    assert forall t :: t in own <==> t in multiset(own);
    assert forall t :: t in toks <==> t in multiset(toks);
    assert multiset(own) <= multiset(toks);
    assert |multiset(toks) - multiset(own)| == |toks| - |own| == 0;
    assert multiset(toks) - multiset(own) == multiset{};
  }

  /** Visible tokens are nested, doubles or not, if each two of them are apart or one in the other. */
  lemma NestedMeans(raw: seq<TokenT>)
    requires forall t | t in raw :: t.start <= t.stop
    ensures Nested(Visible(SortedTokens(raw)))
            <==> forall t, u | t in raw && u in raw && t.kind != WHITESPACE && u.kind != WHITESPACE :: Compatible(t, u)
  {
    var shown := Visible(SortedTokens(raw));
    VisibleOfRaw(raw);
    hide SortedTokens, Visible, Nested, Compatible;
    if Nested(shown) {
      NestedIsCompatible(shown);
    }
    if forall t, u | t in raw && u in raw && t.kind != WHITESPACE && u.kind != WHITESPACE :: Compatible(t, u) {
      CompatibleIsNested(shown);
    }
  }

  lemma VisibleOfRaw(raw: seq<TokenT>)
    ensures var shown := Visible(SortedTokens(raw));
            Sorted(shown) && forall t :: t in shown <==> t in raw && t.kind != WHITESPACE
  {
    var tokens := SortedTokens(raw);
    SortedTokensFacts(raw);
    VisibleMembers(tokens);
    VisibleIsFilter(tokens);
    FilterSortedNested(IsShown, tokens);
  }

  lemma CompatibleIsNested(shown: seq<TokenT>)
    requires Sorted(shown) && forall t | t in shown :: t.start <= t.stop
    requires forall t, u | t in shown && u in shown :: Compatible(t, u)
    ensures Nested(shown)
  {
    forall i, j | 0 <= i < j < |shown|
      ensures shown[i].stop <= shown[j].start || shown[j].stop <= shown[i].stop
    {
      assert shown[i] in shown && shown[j] in shown;
      assert Compatible(shown[i], shown[j]);
    }
  }

  /** No piece is dropped by the one forward sweep over all lines. */
  lemma NoPieceDropped(endlines: seq<Endline>, raw: seq<TokenT>, total: nat)
    requires Grammatical(endlines, raw, total)
    ensures var lines := Lines(0, SortedEndlines(endlines)[1..], total);
            Flatten(Groups(SortedPieces(endlines, raw), lines)) == SortedPieces(endlines, raw)
  {
    Prepare(endlines, raw, total);
    SweepKeepsAll(SortedPieces(endlines, raw), 0, SortedEndlines(endlines)[1..], total);
  }

  /** The text leaves partition the line, and each byte is shown under the kinds of the file's
      visible tokens that cover it, outermost first. */
  ghost predicate ShowsLine(spans: seq<Span>, line: LineOut, shown: seq<TokenT>) {
    var leaves := TextLeaves(spans, []);
    && Partition(leaves, 0, line.length)
    && forall i, x | 0 <= i < |leaves| && leaves[i].begin <= x < leaves[i].end ::
         leaves[i].kinds == KindsFrom(shown, line.start, x)
  }

  /** The same in terms of what the grammar emits: each byte is shown under all visible tokens on it,
      each of them once. */
  ghost predicate ShowsTokens(spans: seq<Span>, line: LineOut, raw: seq<TokenT>) {
    var leaves := TextLeaves(spans, []);
    forall i, x | 0 <= i < |leaves| && leaves[i].begin <= x < leaves[i].end :: StackFrom(leaves[i].kinds, raw, line.start, x)
  }

  ghost predicate StackFrom(kinds: seq<nat>, raw: seq<TokenT>, offset: nat, x: int) {
    IsStack(kinds, raw, offset + x)
  }

  /** What is shown for a line of a grammar's result: the spans are its tokens, and on each byte those
      of the file. */
  ghost predicate IsHighlighted(spans: seq<Span>, line: LineOut, raw: seq<TokenT>) {
    && ShowsLine(spans, line, Visible(SortedTokens(raw))) && (NoTurns(raw) ==> ShowsTokens(spans, line, raw))
    && NoneEmpty(spans) && ReadSpans(spans) == WithBytes(Visible(line.tokens))
  }

  /** No visible token is emitted in turns with another one for the same place. */
  ghost predicate NoTurns(raw: seq<TokenT>) {
    forall t | t in raw && t.kind != WHITESPACE :: !Parted(raw, t)
  }

  lemma LineShowsTokens(spans: seq<Span>, line: LineOut, raw: seq<TokenT>)
    requires ShowsLine(spans, line, Visible(SortedTokens(raw))) && NoTurns(raw)
    ensures ShowsTokens(spans, line, raw)
  {
    hide SortedTokens, Visible, TextLeaves, IsStack, KindsAt, Partition;
    var leaves := TextLeaves(spans, []);
    forall i, x | 0 <= i < |leaves| && leaves[i].begin <= x < leaves[i].end
      ensures StackFrom(leaves[i].kinds, raw, line.start, x)
    {
      assert leaves[i].kinds == KindsFrom(Visible(SortedTokens(raw)), line.start, x);
      StackAt(raw, line.start + x);
    }
  }

  method HighlightLine(
    ghost endlines: seq<Endline>, ghost raw: seq<TokenT>, ghost total: nat, ghost k: nat, line: LineOut)
    returns (spans: seq<Span>)
    requires Grammatical(endlines, raw, total) && total < 0x1_0000_0000
    requires k < |ExpectedLines(endlines, raw, total)| && line == ExpectedLines(endlines, raw, total)[k]
    requires Nested(Visible(SortedTokens(raw)))
    ensures IsHighlighted(spans, line, raw)
  {
    LineKeepsKinds(endlines, raw, total, k);
    var tree := From(line.tokens, line.length);
    spans := NodeSpans(tree);
    TreeIsHighlighted(line, tree, raw);
  }

  lemma TreeIsHighlighted(line: LineOut, tree: Node, raw: seq<TokenT>)
    requires line.length < 0x1_0000_0000 && Nested(Visible(line.tokens)) && ShowsAlike(line, Visible(SortedTokens(raw)))
    requires Layered(tree) && tree.tok == TokenT(0, line.length, WHITESPACE)
    requires Preorder(tree) == [TokenT(0, line.length, WHITESPACE)] + Visible(line.tokens)
    ensures IsHighlighted(Spans(tree), line, raw)
  {
    hide Spans, SortedTokens, ReadSpans, WithBytes, NoneEmpty, Preorder, Layered, Nested, NoTurns, ShowsTokens;
    LineReads(line.tokens, line.length, tree);
    TreeShowsLine(line, tree, Visible(SortedTokens(raw)));
    if NoTurns(raw) {
      LineShowsTokens(Spans(tree), line, raw);
    }
  }

  lemma TreeShowsLine(line: LineOut, tree: Node, shown: seq<TokenT>)
    requires line.length < 0x1_0000_0000 && Nested(Visible(line.tokens)) && ShowsAlike(line, shown)
    requires Layered(tree) && tree.tok == TokenT(0, line.length, WHITESPACE)
    requires Preorder(tree) == [TokenT(0, line.length, WHITESPACE)] + Visible(line.tokens)
    ensures ShowsLine(Spans(tree), line, shown)
  {
    hide Spans, Visible, Preorder, Layered, Nested, TextLeaves, KindsAt, Partition;
    LineSpans(line.tokens, line.length, tree);
    PartitionBounds(TextLeaves(Spans(tree), []), 0, line.length);
  }

  /** Highlights a file: line by line, from the grammar's tokens to the spans. */
  method Highlight(grammar: GrammarResult, contentsLength: nat) returns (lines: seq<LineOut>, spans: seq<seq<Span>>)
    requires Grammatical(grammar.endlines, grammar.tokens, contentsLength) && contentsLength < 0x1_0000_0000
    requires Nested(Visible(SortedTokens(grammar.tokens)))
    modifies grammar
    ensures lines == ExpectedLines(old(grammar.endlines), old(grammar.tokens), contentsLength) && |spans| == |lines|
    ensures forall k | 0 <= k < |lines| :: IsHighlighted(spans[k], lines[k], old(grammar.tokens))
  {
    hide IsHighlighted, ExpectedLines, Nested;
    ghost var endlines, tokens := grammar.endlines, grammar.tokens;
    lines := grammar.ProduceLines(contentsLength);
    spans := [];
    while |spans| < |lines|
      invariant |spans| <= |lines|
      invariant forall k | 0 <= k < |spans| :: IsHighlighted(spans[k], lines[k], tokens)
    {
      var contents := HighlightLine(endlines, tokens, contentsLength, |spans|, lines[|spans|]);
      spans := spans + [contents];
    }
  }
}
