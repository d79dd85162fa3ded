/**
 `propagate`: totals are added up from the leaves, and a module holding just one module (or a
 directory holding just one directory) takes that child's place and joins the names.
 */
module Propagation {
  import opened Wrappers
  import opened Sequences
  import opened CoverageStats
  import opened ProjectionTree

  function StatsOf(children: seq<Dir>): seq<EntryStats> {
    if children == [] then [] else [children[0].entry.stats] + StatsOf(children[1..])
  }

  function MergedName(kind: EntryKind, display: string, child: string, sep: string): string {
    if kind == Module then (if display != "" then display + sep else display) + child
    else display + "/" + child
  }

  function Collapsed(entry: Entry, children: seq<Dir>, sep: string): Dir {
    if |children| != 1 || entry.kind != children[0].entry.kind then Dir(entry, children)
    else
      Dir(entry.(display := MergedName(entry.kind, entry.display, children[0].entry.display, sep)),
          children[0].children)
  }

  function Propagated(dir: Dir, sep: string): Dir {
    var children := PropagatedForest(dir.children, sep);
    var own := if dir.entry.kind == File then dir.entry.stats else NO_STATS;
    Collapsed(dir.entry.(stats := Extend(own, Total(StatsOf(children)))), children, sep)
  }

  function PropagatedForest(children: seq<Dir>, sep: string): (r: seq<Dir>)
    ensures |r| == |children|
  {
    if children == [] then [] else [Propagated(children[0], sep)] + PropagatedForest(children[1..], sep)
  }

  // ---------------------------------------------------------------------------
  // Totals

  /** The statistics of the files under a node, in order. */
  function FilesOf(dir: Dir): seq<EntryStats> {
    if dir.entry.kind == File then [dir.entry.stats] else FilesOfForest(dir.children)
  }

  function FilesOfForest(children: seq<Dir>): seq<EntryStats> {
    if children == [] then [] else FilesOf(children[0]) + FilesOfForest(children[1..])
  }

  /** Every module and directory carries the total of the files under it. */
  predicate ExactTotals(dir: Dir) {
    dir.entry.stats == Total(FilesOf(dir)) && ExactTotalsForest(dir.children)
  }

  predicate ExactTotalsForest(children: seq<Dir>) {
    children == [] || (ExactTotals(children[0]) && ExactTotalsForest(children[1..]))
  }

  lemma {:induction false} ForestTotal(children: seq<Dir>)
    requires ExactTotalsForest(children)
    ensures Total(StatsOf(children)) == Total(FilesOfForest(children))
  {
    if children == [] {
    } else {
      ForestTotal(children[1..]);
      TotalConcat(FilesOf(children[0]), FilesOfForest(children[1..]));
    }
  }

  /** No node has exactly one child and that child of its own kind. */
  predicate Compressed(dir: Dir) {
    !(|dir.children| == 1 && dir.children[0].entry.kind == dir.entry.kind) && CompressedForest(dir.children)
  }

  predicate CompressedForest(children: seq<Dir>) {
    children == [] || (Compressed(children[0]) && CompressedForest(children[1..]))
  }

  ghost predicate Normalised(children: seq<Dir>) {
    ShapedForest(children) && ExactTotalsForest(children) && CompressedForest(children)
  }

  /** Joining a node with the total of its children with its only child. */
  lemma {:induction false} CollapsedNormalises(entry: Entry, children: seq<Dir>, sep: string)
    requires Normalised(children) && entry.kind != StandaloneFile && (entry.kind == File ==> children == [])
    requires entry.kind != File ==> entry.stats == Total(FilesOfForest(children))
    ensures var r := Collapsed(entry, children, sep);
            && Shaped(r) && ExactTotals(r) && Compressed(r) && r.entry.kind == entry.kind
            && FilesOf(r) == FilesOf(Dir(entry, children))
  {
    ExtendLaws(entry.stats, NO_STATS, NO_STATS);
    if |children| == 1 {
      var only := children[0];
      assert children[1..] == [] && Shaped(only) && ExactTotals(only) && Compressed(only);
      assert FilesOfForest(children) == FilesOf(only);
    }
    if entry.kind == File {
      assert [entry.stats][1..] == [];
    }
  }

  /** Propagation keeps the files, makes every total exact and leaves no chain to compress. */
  lemma {:induction false} PropagatedNormalises(dir: Dir, sep: string)
    requires Shaped(dir)
    ensures var r := Propagated(dir, sep);
            Shaped(r) && r.entry.kind == dir.entry.kind && FilesOf(r) == FilesOf(dir) && ExactTotals(r) && Compressed(r)
  {
    PropagatedForestNormalises(dir.children, sep);
    var children := PropagatedForest(dir.children, sep);
    ForestTotal(children);
    var own := if dir.entry.kind == File then dir.entry.stats else NO_STATS;
    ExtendLaws(own, NO_STATS, NO_STATS);
    ExtendLaws(Total(StatsOf(children)), NO_STATS, NO_STATS);
    CollapsedNormalises(dir.entry.(stats := Extend(own, Total(StatsOf(children)))), children, sep);
  }

  lemma {:induction false} PropagatedForestNormalises(children: seq<Dir>, sep: string)
    requires ShapedForest(children)
    ensures var r := PropagatedForest(children, sep);
            ShapedForest(r) && FilesOfForest(r) == FilesOfForest(children) && ExactTotalsForest(r) && CompressedForest(r)
    ensures KindsKept(children, PropagatedForest(children, sep))
  {
    PropagatedKinds(children, sep);
    if children == [] {
    } else {
      PropagatedNormalises(children[0], sep);
      PropagatedForestNormalises(children[1..], sep);
      FrontNormalised(Propagated(children[0], sep), PropagatedForest(children[1..], sep));
    }
  }

  lemma {:induction false} FrontNormalised(dir: Dir, rest: seq<Dir>)
    requires Shaped(dir) && ExactTotals(dir) && Compressed(dir) && Normalised(rest)
    ensures Normalised([dir] + rest) && FilesOfForest([dir] + rest) == FilesOf(dir) + FilesOfForest(rest)
  {
    assert ([dir] + rest)[1..] == rest;
  }

  ghost predicate KindsKept(before: seq<Dir>, after: seq<Dir>) {
    |after| == |before| && forall i | 0 <= i < |before| :: after[i].entry.kind == before[i].entry.kind
  }

  lemma {:induction false} PropagatedKinds(children: seq<Dir>, sep: string)
    ensures KindsKept(children, PropagatedForest(children, sep))
  {
    if children == [] {
    } else {
      PropagatedKinds(children[1..], sep);
      assert forall i | 0 < i < |children| :: children[i] == children[1..][i - 1];
    }
  }

  // ---------------------------------------------------------------------------
  // Names: joining is the same as walking down, except through a module without a name

  /** No module without a name is joined with its only child. */
  predicate Lossless(dir: Dir) {
    !(dir.entry.kind == Module && dir.entry.display == "" && |dir.children| == 1 && dir.children[0].entry.kind == Module)
    && LosslessForest(dir.children)
  }

  predicate LosslessForest(children: seq<Dir>) {
    children == [] || (Lossless(children[0]) && LosslessForest(children[1..]))
  }

  lemma {:induction false} LosslessKeepsLeaves(dir: Dir, modules: Trail, path: Trail, sep: string)
    requires Shaped(dir) && Lossless(dir)
    ensures Leaves(Propagated(dir, sep), modules, path, sep) == Leaves(dir, modules, path, sep)
    decreases dir
  {
    hide ForestLeaves, PropagatedForest, ShapedForest;
    PropagatedForestNormalises(dir.children, sep);
    var children := PropagatedForest(dir.children, sep);
    var display := dir.entry.display;
    match dir.entry.kind
    case Module =>
      LosslessKeepsForestLeaves(dir.children, Extended(modules, sep, display), path, sep);
      if |children| == 1 && children[0].entry.kind == Module {
        OnlyChild(children, Extended(modules, sep, display), path, sep);
        ExtendedTwice(modules, sep, display, children[0].entry.display);
      }
    case Directory =>
      LosslessKeepsForestLeaves(dir.children, modules, Extended(path, "/", display), sep);
      if |children| == 1 && children[0].entry.kind == Directory {
        OnlyChild(children, modules, Extended(path, "/", display), sep);
        ExtendedTwice(path, "/", display, children[0].entry.display);
      }
    case File =>
      ExtendLaws(dir.entry.stats, NO_STATS, NO_STATS);
  }

  lemma {:induction false} LosslessKeepsForestLeaves(children: seq<Dir>, modules: Trail, path: Trail, sep: string)
    requires ShapedForest(children) && LosslessForest(children)
    ensures ForestLeaves(PropagatedForest(children, sep), modules, path, sep) == ForestLeaves(children, modules, path, sep)
    decreases children
  {
    if children == [] {
    } else {
      LosslessKeepsLeaves(children[0], modules, path, sep);
      LosslessKeepsForestLeaves(children[1..], modules, path, sep);
      assert PropagatedForest(children, sep)[1..] == PropagatedForest(children[1..], sep);
    }
  }

  lemma OnlyChild(children: seq<Dir>, modules: Trail, path: Trail, sep: string)
    requires |children| == 1
    ensures ForestLeaves(children, modules, path, sep) == Leaves(children[0], modules, path, sep)
  {
    assert children[1..] == [];
  }

  // ---------------------------------------------------------------------------
  // The other direction: a join through a nameless module makes module chains shorter

  /** Every module and directory holds at least one file somewhere below. */
  predicate Inhabited(dir: Dir) {
    FilesOf(dir) != [] && InhabitedForest(dir.children)
  }

  predicate InhabitedForest(children: seq<Dir>) {
    children == [] || (Inhabited(children[0]) && InhabitedForest(children[1..]))
  }

  /** A length, once for each of `n` files. */
  function Times(n: nat, length: int): int {
    if n == 0 then 0 else length + Times(n - 1, length)
  }

  lemma {:induction false} TimesSum(n: nat, a: int, b: int)
    ensures Times(n, a + b) == Times(n, a) + Times(n, b)
  {
    if n == 0 {
    } else {
      TimesSum(n - 1, a, b);
    }
  }

  lemma {:induction false} SumTimes(m: nat, n: nat, a: int)
    ensures Times(m + n, a) == Times(m, a) + Times(n, a)
  {
    if m == 0 {
    } else {
      SumTimes(m - 1, n, a);
    }
  }

  lemma {:induction false} TimesSign(n: nat, a: int)
    requires n > 0
    ensures a > 0 ==> Times(n, a) > 0
    ensures Times(n, -a) == -Times(n, a)
  {
    if n > 1 {
      TimesSign(n - 1, a);
    }
  }

  /** The length of a node's own name and separator, once for each of its files. */
  function OwnSpelled(kind: EntryKind, display: string, n: nat, sep: string): nat {
    if kind == Module then OwnLength(n, NameLength(display, sep)) else 0
  }

  function NameLength(display: string, sep: string): nat {
    |sep| + |display|
  }

  function OwnLength(n: nat, length: nat): (r: nat)
    ensures r == Times(n, length)
  {
    if n == 0 then 0 else length + OwnLength(n - 1, length)
  }

  /** The length of the modules' names and separators on the way to all files under a node. */
  function Spelled(dir: Dir, sep: string): nat {
    SpelledForest(dir.children, sep)
    + OwnSpelled(dir.entry.kind, dir.entry.display, |FilesOf(dir)|, sep)
  }

  function SpelledForest(children: seq<Dir>, sep: string): nat {
    if children == [] then 0 else Spelled(children[0], sep) + SpelledForest(children[1..], sep)
  }

  function TrailLength(trail: Trail, sep: string): int {
    match trail
    case None => -|sep|
    case Some(name) => |name|
  }

  function SpelledLeaves(leaves: seq<Leaf>, sep: string): int {
    if leaves == [] then 0 else TrailLength(leaves[0].modules, sep) + SpelledLeaves(leaves[1..], sep)
  }

  lemma {:induction false} SpelledLeavesConcat(a: seq<Leaf>, b: seq<Leaf>, sep: string)
    ensures SpelledLeaves(a + b, sep) == SpelledLeaves(a, sep) + SpelledLeaves(b, sep)
  {
    if a == [] {
      assert a + b == b;
    } else {
      assert (a + b)[1..] == a[1..] + b;
      SpelledLeavesConcat(a[1..], b, sep);
    }
  }

  lemma {:induction false} LeavesSpelled(dir: Dir, modules: Trail, path: Trail, sep: string)
    requires Shaped(dir)
    ensures |Leaves(dir, modules, path, sep)| == |FilesOf(dir)|
    ensures SpelledLeaves(Leaves(dir, modules, path, sep), sep)
            == Spelled(dir, sep) + Times(|FilesOf(dir)|, TrailLength(modules, sep))
    decreases dir
  {
    match dir.entry.kind
    case Module =>
      ForestLeavesSpelled(dir.children, Extended(modules, sep, dir.entry.display), path, sep);
      TimesSum(|FilesOf(dir)|, |sep| + |dir.entry.display|, TrailLength(modules, sep));
    case Directory =>
      ForestLeavesSpelled(dir.children, modules, Extended(path, "/", dir.entry.display), sep);
    case File =>
      assert Leaves(dir, modules, path, sep)[1..] == [];
  }

  lemma {:induction false} ForestLeavesSpelled(children: seq<Dir>, modules: Trail, path: Trail, sep: string)
    requires ShapedForest(children)
    ensures |ForestLeaves(children, modules, path, sep)| == |FilesOfForest(children)|
    ensures SpelledLeaves(ForestLeaves(children, modules, path, sep), sep)
            == SpelledForest(children, sep) + Times(|FilesOfForest(children)|, TrailLength(modules, sep))
    decreases children
  {
    if children == [] {
    } else {
      LeavesSpelled(children[0], modules, path, sep);
      ForestLeavesSpelled(children[1..], modules, path, sep);
      SpelledLeavesConcat(Leaves(children[0], modules, path, sep), ForestLeaves(children[1..], modules, path, sep), sep);
      SumTimes(|FilesOf(children[0])|, |FilesOfForest(children[1..])|, TrailLength(modules, sep));
    }
  }

  lemma {:induction false} TimesBalance(n: nat, a: int, b: int, c: int, d: int)
    requires a + b == c + d
    ensures Times(n, a) + Times(n, b) == Times(n, c) + Times(n, d)
    ensures Times(n, 0) == 0
  {
    if n == 0 {
    } else {
      TimesBalance(n - 1, a, b, c, d);
    }
  }

  lemma JoinedName(kind: EntryKind, outer: string, inner: string, n: nat, sep: string)
    requires kind != File
    ensures OwnSpelled(kind, MergedName(kind, outer, inner, sep), n, sep)
            + (if kind == Module && outer == "" then Times(n, |sep|) else 0)
            == OwnSpelled(kind, outer, n, sep) + OwnSpelled(kind, inner, n, sep)
  {
    var merged, extra := MergedName(kind, outer, inner, sep), if outer == "" then |sep| else 0;
    if kind == Module {
      TimesBalance(n, NameLength(merged, sep), extra, NameLength(outer, sep), NameLength(inner, sep));
    }
  }

  /** Joining a node with its only child costs one separator per file when the node has no name. */
  lemma CollapsedSpelled(entry: Entry, children: seq<Dir>, sep: string)
    requires entry.kind != File
    ensures var n := |FilesOfForest(children)|;
            var joined := |children| == 1 && children[0].entry.kind == entry.kind;
            Spelled(Collapsed(entry, children, sep), sep)
            + (if joined && entry.kind == Module && entry.display == "" then Times(n, |sep|) else 0)
            == SpelledForest(children, sep) + OwnSpelled(entry.kind, entry.display, n, sep)
  {
    if |children| == 1 && children[0].entry.kind == entry.kind {
      var child := children[0];
      assert children[1..] == [];
      assert FilesOfForest(children) == FilesOf(child);
      assert SpelledForest(children, sep) == Spelled(child, sep);
      JoinedName(entry.kind, entry.display, child.entry.display, |FilesOf(child)|, sep);
    }
  }

  lemma {:induction false} LossShortens(dir: Dir, sep: string)
    requires Shaped(dir) && Inhabited(dir) && sep != ""
    ensures Spelled(Propagated(dir, sep), sep) <= Spelled(dir, sep)
    ensures !Lossless(dir) ==> Spelled(Propagated(dir, sep), sep) < Spelled(dir, sep)
    decreases dir
  {
    LossShortensForest(dir.children, sep);
    PropagatedForestNormalises(dir.children, sep);
    var children := PropagatedForest(dir.children, sep);
    if dir.entry.kind != File {
      var entry := dir.entry.(stats := Extend(NO_STATS, Total(StatsOf(children))));
      CollapsedSpelled(entry, children, sep);
      var n := |FilesOf(dir)|;
      TimesSign(n, |sep|);
      assert |FilesOfForest(children)| == n;
      assert Spelled(dir, sep) == SpelledForest(dir.children, sep) + OwnSpelled(entry.kind, entry.display, n, sep);
      SameShape(dir.children, sep);
    }
  }

  /** Whether there is a single child, and of what kind, does not change below. */
  lemma SameShape(children: seq<Dir>, sep: string)
    requires ShapedForest(children)
    ensures |PropagatedForest(children, sep)| == |children|
    ensures |children| == 1 ==> PropagatedForest(children, sep)[0].entry.kind == children[0].entry.kind
  {
    PropagatedForestNormalises(children, sep);
  }

  lemma {:induction false} LossShortensForest(children: seq<Dir>, sep: string)
    requires ShapedForest(children) && InhabitedForest(children) && sep != ""
    ensures SpelledForest(PropagatedForest(children, sep), sep) <= SpelledForest(children, sep)
    ensures !LosslessForest(children) ==> SpelledForest(PropagatedForest(children, sep), sep) < SpelledForest(children, sep)
    decreases children
  {
    if children == [] {
    } else {
      LossShortens(children[0], sep);
      LossShortensForest(children[1..], sep);
      assert PropagatedForest(children, sep)[1..] == PropagatedForest(children[1..], sep);
    }
  }

  // ---------------------------------------------------------------------------
  // The root, whose name does not count while it is empty

  function RootTrail(display: string): Trail {
    if display == "" then None else Some(display)
  }

  function RootLeaves(root: Dir, sep: string): seq<Leaf> {
    ForestLeaves(root.children, RootTrail(root.entry.display), None, sep)
  }

  predicate RootLossless(root: Dir) {
    && LosslessForest(root.children)
    && !(|root.children| == 1 && root.children[0].entry.kind == Module && root.children[0].entry.display == "")
  }

  /** Propagation keeps every file under its chain of modules and its path, in order, if and only
      if it joins no module without a name. */
  lemma PropagateKeepsNamesIff(root: Dir, sep: string)
    requires root.entry.kind == Module && root.entry.display == "" && sep != ""
    requires ShapedForest(root.children) && InhabitedForest(root.children)
    ensures RootLeaves(Propagated(root, sep), sep) == RootLeaves(root, sep) <==> RootLossless(root)
  {
    var children := PropagatedForest(root.children, sep);
    PropagatedForestNormalises(root.children, sep);
    LossShortensForest(root.children, sep);
    ForestLeavesSpelled(root.children, None, None, sep);
    if |children| == 1 && children[0].entry.kind == Module {
      RootJoin(root, sep);
    } else {
      ForestLeavesSpelled(children, None, None, sep);
      if LosslessForest(root.children) {
        LosslessKeepsForestLeaves(root.children, None, None, sep);
      }
    }
  }

  lemma RootJoin(root: Dir, sep: string)
    requires root.entry.kind == Module && root.entry.display == "" && sep != ""
    requires ShapedForest(root.children) && InhabitedForest(root.children)
    requires |root.children| == 1 && root.children[0].entry.kind == Module
    ensures RootLeaves(Propagated(root, sep), sep) == RootLeaves(root, sep) <==> RootLossless(root)
  {
    var before, after := root.children[0], Propagated(root.children[0], sep);
    assert root.children[1..] == [];
    assert PropagatedForest(root.children, sep) == [after];
    PropagatedNormalises(before, sep);
    OnlyChild(root.children, None, None, sep);
    JoinedLeaves(before, sep);
    var joined := Propagated(root, sep);
    assert "" + after.entry.display == after.entry.display;
    assert joined.children == after.children && joined.entry.display == after.entry.display;
    assert LosslessForest(root.children) <==> Lossless(before);
  }

  /** The root takes the place of its only child `before`. */
  lemma JoinedLeaves(before: Dir, sep: string)
    requires before.entry.kind == Module && Shaped(before) && Inhabited(before) && sep != ""
    ensures var after := Propagated(before, sep);
            ForestLeaves(after.children, RootTrail(after.entry.display), None, sep) == Leaves(before, None, None, sep)
            <==> Lossless(before) && before.entry.display != ""
  {
    hide ForestLeaves, Inhabited, ShapedForest;
    var after := Propagated(before, sep);
    PropagatedNormalises(before, sep);
    if Lossless(before) && before.entry.display != "" {
      NamelessOnly(before, sep);
      LosslessKeepsLeaves(before, None, None, sep);
    } else {
      JoinedLeavesShorter(before, sep);
    }
  }

  lemma JoinedLeavesShorter(before: Dir, sep: string)
    requires before.entry.kind == Module && Shaped(before) && Inhabited(before) && sep != ""
    requires !(Lossless(before) && before.entry.display != "")
    ensures var after := Propagated(before, sep);
            SpelledLeaves(ForestLeaves(after.children, RootTrail(after.entry.display), None, sep), sep)
            < SpelledLeaves(Leaves(before, None, None, sep), sep)
  {
    hide ForestLeaves;
    var after := Propagated(before, sep);
    var n := |FilesOf(before)|;
    PropagatedNormalises(before, sep);
    LossShortens(before, sep);
    LeavesSpelled(before, None, None, sep);
    ForestLeavesSpelled(after.children, RootTrail(after.entry.display), None, sep);
    TimesSum(n, |sep| + |after.entry.display|, -|sep|);
    TimesSign(n, |sep|);
    if Lossless(before) {
      NamelessOnly(before, sep);
    }
  }

  /** A lossless module keeps or extends its name, so it stays nameless only if it was. */
  lemma NamelessOnly(dir: Dir, sep: string)
    requires dir.entry.kind == Module && Shaped(dir) && Lossless(dir) && sep != ""
    ensures Propagated(dir, sep).entry.display == "" <==> dir.entry.display == ""
  {
    PropagatedForestNormalises(dir.children, sep);
  }

  // ---------------------------------------------------------------------------
  // Cutting single directories off the top of the listing

  function Renamed(children: seq<Dir>, prefix: string): (r: seq<Dir>)
    ensures |r| == |children|
    ensures forall i | 0 <= i < |r| ::
              r[i] == Dir(children[i].entry.(display := prefix + children[i].entry.display), children[i].children)
  {
    if children == [] then []
    else
      [Dir(children[0].entry.(display := prefix + children[0].entry.display), children[0].children)]
      + Renamed(children[1..], prefix)
  }

  predicate OnlyDirectory(children: seq<Dir>) {
    |children| == 1 && children[0].entry.kind == Directory
  }

  function CutOff(children: seq<Dir>, prefix: string): seq<Dir> {
    if OnlyDirectory(children) then CutOff(children[0].children, prefix + children[0].entry.display + "/")
    else Renamed(children, prefix)
  }

  lemma {:induction false} RenamedKeepsStats(children: seq<Dir>, prefix: string)
    requires ShapedForest(children)
    ensures StatsOf(Renamed(children, prefix)) == StatsOf(children)
    ensures FilesOfForest(Renamed(children, prefix)) == FilesOfForest(children)
  {
    if children == [] {
    } else {
      RenamedKeepsStats(children[1..], prefix);
      assert Renamed(children, prefix)[1..] == Renamed(children[1..], prefix);
    }
  }

  /** What is left after the cut adds up to the same total and holds the same files. */
  lemma {:induction false} CutOffKeepsTotal(children: seq<Dir>, prefix: string)
    requires ExactTotalsForest(children) && ShapedForest(children)
    ensures Total(StatsOf(CutOff(children, prefix))) == Total(StatsOf(children))
    ensures FilesOfForest(CutOff(children, prefix)) == FilesOfForest(children)
    decreases children
  {
    if OnlyDirectory(children) {
      assert children[1..] == [];
      assert FilesOfForest(children) == FilesOf(children[0]);
      CutOffKeepsTotal(children[0].children, prefix + children[0].entry.display + "/");
      ForestTotal(children);
      ForestTotal(children[0].children);
    } else {
      RenamedKeepsStats(children, prefix);
    }
  }

  // ---------------------------------------------------------------------------
  // Trees grown from modules with clean names never lose a name

  /** No segment of a module's name is empty. */
  predicate CleanName(name: string, sep: string)
    decreases |name|
  {
    name == ""
    || (var (display, rest) := SplitModule(name, sep); display != "" && CleanName(rest, sep))
  }

  predicate NamedForest(children: seq<Dir>) {
    forall i | 0 <= i < |children| ::
      (children[i].entry.kind == Module ==> children[i].entry.display != "") && NamedForest(children[i].children)
  }

  lemma {:induction false} NamedIsLossless(children: seq<Dir>)
    requires NamedForest(children)
    ensures LosslessForest(children)
    decreases children
  {
    if children == [] {
    } else {
      assert NamedForest(children[0].children);
      NamedIsLossless(children[0].children);
      assert NamedForest(children[1..]) by {
        assert forall i | 0 <= i < |children[1..]| :: children[1..][i] == children[i + 1];
      }
      NamedIsLossless(children[1..]);
    }
  }

  /** Some file below, here and in every module and directory. */
  predicate Filled(children: seq<Dir>) {
    FilesOfForest(children) != [] && InhabitedForest(children)
  }

  lemma {:induction false} InhabitedConcat(a: seq<Dir>, b: seq<Dir>)
    ensures InhabitedForest(a + b) <==> InhabitedForest(a) && InhabitedForest(b)
    ensures FilesOfForest(a + b) == FilesOfForest(a) + FilesOfForest(b)
  {
    hide Inhabited, FilesOf;
    if a == [] {
      assert a + b == b;
    } else {
      assert a + b == [a[0]] + (a[1..] + b);
      assert ([a[0]] + (a[1..] + b))[1..] == a[1..] + b;
      InhabitedConcat(a[1..], b);
      Associative(FilesOf(a[0]), FilesOfForest(a[1..]), FilesOfForest(b));
    }
  }

  /** Replacing one child by a filled one fills the forest. */
  lemma FilledChild(children: seq<Dir>, k: nat, dir: Dir)
    requires k < |children| && dir.entry.kind != File && Filled(dir.children)
    requires InhabitedForest(children[..k]) && InhabitedForest(children[k + 1..])
    ensures Filled(children[k := dir])
  {
    assert children[k := dir] == children[..k] + ([dir] + children[k + 1..]);
    InhabitedConcat(children[..k], [dir] + children[k + 1..]);
    InhabitedConcat([dir], children[k + 1..]);
    assert [dir][1..] == [];
    assert Inhabited(dir);
    assert FilesOfForest([dir]) == FilesOf(dir);
  }

  /** A level whose child is filled afterwards is filled, and stays named. */
  lemma FilledLevel(children: seq<Dir>, kind: EntryKind, display: string, grown: seq<Dir>)
    requires InhabitedForest(children) && Filled(grown) && kind in {Module, Directory}
    ensures var (all, k) := Level(children, kind, display);
            Filled(all[k := Dir(all[k].entry, grown)])
            && (NamedForest(children) && NamedForest(grown) && (kind == Module ==> display != "") ==>
                  NamedForest(all[k := Dir(all[k].entry, grown)]))
  {
    var (all, k) := Level(children, kind, display);
    if k < |children| {
      assert children == children[..k] + ([children[k]] + children[k + 1..]);
      InhabitedConcat(children[..k], [children[k]] + children[k + 1..]);
      assert ([children[k]] + children[k + 1..])[1..] == children[k + 1..];
    } else {
      assert all[..k] == children && all[k + 1..] == [];
    }
    FilledChild(all, k, Dir(all[k].entry, grown));
  }

  lemma {:induction false} AddFileFills(children: seq<Dir>, filename: string, file: FileStats)
    requires InhabitedForest(children)
    ensures Filled(AddFile(children, filename, file))
    ensures NamedForest(children) ==> NamedForest(AddFile(children, filename, file))
    decreases |filename|
  {
    match SplitPath(filename)
    case None =>
      var leaf := Dir(MakeFile(filename, file), []);
      InhabitedConcat(children, [leaf]);
      assert [leaf][1..] == [];
      assert Inhabited(leaf) && InhabitedForest([leaf]) && NamedForest(leaf.children);
    case Some((display, rest)) =>
      var (all, k) := Level(children, Directory, display);
      LevelInhabited(children, Directory, display);
      AddFileFills(all[k].children, rest, file);
      FilledLevel(children, Directory, display, AddFile(all[k].children, rest, file));
  }

  lemma ChildInhabited(children: seq<Dir>, k: nat)
    requires InhabitedForest(children) && k < |children|
    ensures InhabitedForest(children[k].children)
  {
    assert children == children[..k] + ([children[k]] + children[k + 1..]);
    InhabitedConcat(children[..k], [children[k]] + children[k + 1..]);
    assert ([children[k]] + children[k + 1..])[0] == children[k];
  }

  lemma LevelInhabited(children: seq<Dir>, kind: EntryKind, display: string)
    requires InhabitedForest(children)
    ensures var (all, k) := Level(children, kind, display); InhabitedForest(all[k].children)
    ensures var (all, k) := Level(children, kind, display); NamedForest(children) ==> NamedForest(all[k].children)
  {
    var k := FindEntry(children, kind, display);
    if k < |children| {
      ChildInhabited(children, k);
    }
  }

  lemma {:induction false} AddFilesFill(children: seq<Dir>, files: seq<FileStats>, prefixLength: nat)
    requires InhabitedForest(children) && files != []
    ensures Filled(AddFiles(children, files, prefixLength))
    ensures NamedForest(children) ==> NamedForest(AddFiles(children, files, prefixLength))
    decreases files
  {
    var name := Trimmed(files[0].filename, prefixLength);
    AddFileFills(children, name, files[0]);
    if |files| > 1 {
      AddFilesFill(AddFile(children, name, files[0]), files[1..], prefixLength);
    } else {
      assert files[1..] == [];
    }
  }

  lemma {:induction false} AddModuleFills(
    children: seq<Dir>, name: string, sep: string, files: seq<FileStats>, prefixLength: nat)
    requires InhabitedForest(children) && files != []
    ensures Filled(AddModule(children, name, sep, files, prefixLength))
    ensures NamedForest(children) && CleanName(name, sep) ==>
              NamedForest(AddModule(children, name, sep, files, prefixLength))
    decreases |name|
  {
    if name == "" {
      AddFilesFill(children, files, prefixLength);
    } else {
      var (display, rest) := SplitModule(name, sep);
      var (all, k) := Level(children, Module, display);
      LevelInhabited(children, Module, display);
      AddModuleFills(all[k].children, rest, sep, files, prefixLength);
      FilledLevel(children, Module, display, AddModule(all[k].children, rest, sep, files, prefixLength));
    }
  }

  // ---------------------------------------------------------------------------
  // The statistics of leaves

  function StatsOfLeaf(leaf: Leaf): EntryStats {
    leaf.stats
  }

  function LeafStats(leaves: seq<Leaf>): seq<EntryStats> {
    Map(StatsOfLeaf, leaves)
  }

  lemma {:induction false} LeavesCarryStats(dir: Dir, modules: Trail, path: Trail, sep: string)
    requires Shaped(dir)
    ensures LeafStats(Leaves(dir, modules, path, sep)) == FilesOf(dir)
    decreases dir
  {
    match dir.entry.kind
    case Module => ForestLeavesCarryStats(dir.children, Extended(modules, sep, dir.entry.display), path, sep);
    case Directory => ForestLeavesCarryStats(dir.children, modules, Extended(path, "/", dir.entry.display), sep);
    case File =>
      var leaves := Leaves(dir, modules, path, sep);
      assert leaves[1..] == [];
      assert LeafStats(leaves) == [leaves[0].stats] + LeafStats([]);
  }

  lemma {:induction false} ForestLeavesCarryStats(children: seq<Dir>, modules: Trail, path: Trail, sep: string)
    requires ShapedForest(children)
    ensures LeafStats(ForestLeaves(children, modules, path, sep)) == FilesOfForest(children)
    decreases children
  {
    if children == [] {
    } else {
      LeavesCarryStats(children[0], modules, path, sep);
      ForestLeavesCarryStats(children[1..], modules, path, sep);
      MapConcat(StatsOfLeaf, Leaves(children[0], modules, path, sep), ForestLeaves(children[1..], modules, path, sep));
    }
  }
}
