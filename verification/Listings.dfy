/**
 The listing: the tree is totalled and compressed, single directories at its top are cut off, and
 its children are listed in order with their names in full; or it is about one file.
 */
module Listings {
  import opened Wrappers
  import opened Sequences
  import opened Sorting
  import opened Strings
  import opened CoverageStats
  import opened ProjectionTree
  import opened Propagation
  import opened Prefixes
  import opened DirectoryTree
  import opened Standalone
  import opened Classifying
  import opened Projection

  // ---------------------------------------------------------------------------
  // The files of a listing

  predicate IsBelow(filter: ReportFilter, file: FileStats) {
    filter.fname.Prefixes(file.filename)
  }

  /** The files under the file filter, in order. */
  function FileProjection(filter: ReportFilter, report: seq<FileStats>): seq<FileStats> {
    if report == [] then []
    else (if IsBelow(filter, report[0]) then [report[0]] else []) + FileProjection(filter, report[1..])
  }

  /** A file of the report is taken, as often as the report has it, if its name is the filter or starts
      with the filter's prefix. */
  lemma {:induction false} ProjectionMeans(filter: ReportFilter, report: seq<FileStats>, file: FileStats)
    ensures multiset(FileProjection(filter, report))[file] ==
            if file.filename == filter.fname.filter || StartsWith(file.filename, filter.fname.prefix)
            then multiset(report)[file] else 0
  {
    if report == [] {
    } else {
      var first, later := report[0], FileProjection(filter, report[1..]);
      ProjectionMeans(filter, report[1..], file);
      assert report == [first] + report[1..];
      InFront(first, report[1..]);
      InFront(first, later);
      assert [] + later == later;
      assert FileProjection(filter, report) == if IsBelow(filter, first) then [first] + later else later;
      hide FileProjection;
      assert IsBelow(filter, first) <==> first.filename == filter.fname.filter || StartsWith(first.filename, filter.fname.prefix);
      hide IsBelow, StartsWith;
    }
  }

  /** The files are taken in the order of the report. */
  lemma {:induction false} ProjectionInOrder(filter: ReportFilter, a: seq<FileStats>, b: seq<FileStats>)
    ensures FileProjection(filter, a + b) == FileProjection(filter, a) + FileProjection(filter, b)
  {
    if a == [] {
      assert a + b == b;
    } else {
      assert (a + b)[0] == a[0] && (a + b)[1..] == a[1..] + b;
      ProjectionInOrder(filter, a[1..], b);
      Associative(if IsBelow(filter, a[0]) then [a[0]] else [], FileProjection(filter, a[1..]), FileProjection(filter, b));
    }
  }

  method ProjectFiles(filter: ReportFilter, report: seq<FileStats>) returns (files: seq<FileStats>)
    ensures files == FileProjection(filter, report)
  {
    files := [];
    var i := 0;
    while i < |report|
      invariant 0 <= i <= |report|
      invariant files + FileProjection(filter, report[i..]) == FileProjection(filter, report)
    {
      ProjectionStep(filter, report, i, files);
      if filter.fname.Prefixes(report[i].filename) {
        files := files + [report[i]];
      }
      i := i + 1;
    }
  }

  lemma ProjectionStep(filter: ReportFilter, report: seq<FileStats>, i: nat, files: seq<FileStats>)
    requires i < |report|
    ensures files + FileProjection(filter, report[i..])
            == (if IsBelow(filter, report[i]) then files + [report[i]] else files) + FileProjection(filter, report[i + 1..])
  {
    var rest := FileProjection(filter, report[i + 1..]);
    assert report[i..][1..] == report[i + 1..];
    assert files + ([report[i]] + rest) == files + [report[i]] + rest && [] + rest == rest;
  }

  /** The file filter names exactly one file of the report. */
  predicate IsStandalone(filter: ReportFilter, files: seq<FileStats>) {
    |files| == 1 && files[0].filename == filter.fname.filter
  }

  /** At `i` is the one file of the report that the filter takes, and it is the filter. */
  predicate IsOnlyFile(filter: ReportFilter, report: seq<FileStats>, i: int) {
    && 0 <= i < |report| && report[i].filename == filter.fname.filter
    && forall j | 0 <= j < |report| && j != i :: !IsBelow(filter, report[j])
  }

  lemma {:induction false} NothingBelow(filter: ReportFilter, report: seq<FileStats>)
    ensures FileProjection(filter, report) == [] <==> forall j | 0 <= j < |report| :: !IsBelow(filter, report[j])
  {
    if report == [] {
    } else {
      var rest := report[1..];
      NothingBelow(filter, rest);
      assert forall j | 0 < j < |report| :: report[j] == rest[j - 1];
      assert forall j | 0 <= j < |rest| :: rest[j] == report[j + 1];
    }
  }

  /** The listing is about one file exactly if the report has one file under the filter, and by its name. */
  lemma {:induction false} StandaloneMeans(filter: ReportFilter, report: seq<FileStats>)
    ensures IsStandalone(filter, FileProjection(filter, report)) <==> exists i :: IsOnlyFile(filter, report, i)
  {
    if report == [] {
    } else {
      var first, rest := report[0], report[1..];
      StandaloneMeans(filter, rest);
      NothingBelow(filter, rest);
      OnlyFileBehind(filter, first, rest);
      assert report == [first] + rest;
      assert [] + FileProjection(filter, rest) == FileProjection(filter, rest);
      assert first.filename == filter.fname.filter ==> IsBelow(filter, first);
      hide IsBelow;
      assert FileProjection(filter, report) ==
             if IsBelow(filter, first) then [first] + FileProjection(filter, rest) else FileProjection(filter, rest);
    }
  }

  lemma OnlyFileBehind(filter: ReportFilter, first: FileStats, rest: seq<FileStats>)
    ensures IsOnlyFile(filter, [first] + rest, 0)
            <==> first.filename == filter.fname.filter && forall j | 0 <= j < |rest| :: !IsBelow(filter, rest[j])
    ensures !IsBelow(filter, first) ==>
              ((exists i :: IsOnlyFile(filter, [first] + rest, i)) <==> exists i :: IsOnlyFile(filter, rest, i))
    ensures IsBelow(filter, first) ==> forall i | IsOnlyFile(filter, [first] + rest, i) :: i == 0
  {
    var report := [first] + rest;
    assert report[0] == first && report[1..] == rest;
    assert first.filename == filter.fname.filter ==> IsBelow(filter, first);
    hide IsBelow;
    assert forall j | 0 < j < |report| :: report[j] == rest[j - 1];
    assert forall j | 0 <= j < |rest| :: rest[j] == report[j + 1];
    forall i | IsOnlyFile(filter, rest, i) && !IsBelow(filter, first)
      ensures IsOnlyFile(filter, report, i + 1)
    {
    }
    forall i | IsOnlyFile(filter, report, i) && i > 0
      ensures IsOnlyFile(filter, rest, i - 1)
    {
      assert report[i] == rest[i - 1];
    }
  }

  ghost function KeptFiles(files: seq<FileStats>, places: seq<Option<string>>): seq<EntryStats>
    requires |files| == |places|
  {
    if files == [] then []
    else (if places[0].Some? then [files[0].stats] else []) + KeptFiles(files[1..], places[1..])
  }

  lemma {:induction false} KeptLeavesStats(
    files: seq<FileStats>, places: seq<Option<string>>, sep: string, prefixLength: nat)
    requires |files| == |places|
    ensures LeafStats(KeptLeaves(files, places, sep, prefixLength)) == KeptFiles(files, places)
    decreases files
  {
    if files == [] {
    } else {
      KeptLeavesStats(files[1..], places[1..], sep, prefixLength);
      var head := match places[0]
                  case Some(name) => [FileLeaf(ModuleTrail(None, name, sep), files[0], prefixLength)]
                  case None => [];
      MapConcat(StatsOfLeaf, head, KeptLeaves(files[1..], places[1..], sep, prefixLength));
      assert head != [] ==> head[1..] == [];
    }
  }

  // ---------------------------------------------------------------------------
  // The entries of a listing: their names in full, and their order

  datatype ListedEntry = ListedEntry(entry: Entry, expanded: string)

  function StatsOfListed(e: ListedEntry): EntryStats {
    e.entry.stats
  }

  function StatsOfEntries(entries: seq<ListedEntry>): seq<EntryStats> {
    Map(StatsOfListed, entries)
  }

  function Expanded(module_: Prefixed, fname: Prefixed, e: Entry): ListedEntry {
    ListedEntry(e, (if e.kind == Module then module_ else fname).ApplyTo(e.display))
  }

  function AllExpanded(module_: Prefixed, fname: Prefixed, children: seq<Dir>): (r: seq<ListedEntry>)
    ensures |r| == |children|
    ensures forall i | 0 <= i < |r| :: r[i] == Expanded(module_, fname, children[i].entry)
  {
    if children == [] then []
    else [Expanded(module_, fname, children[0].entry)] + AllExpanded(module_, fname, children[1..])
  }

  lemma {:induction false} ExpandedStats(module_: Prefixed, fname: Prefixed, children: seq<Dir>)
    ensures StatsOfEntries(AllExpanded(module_, fname, children)) == StatsOf(children)
  {
    if children == [] {
    } else {
      ExpandedStats(module_, fname, children[1..]);
      assert AllExpanded(module_, fname, children)[1..] == AllExpanded(module_, fname, children[1..]);
    }
  }

  function Rank(kind: EntryKind): nat {
    match kind
    case StandaloneFile => 0
    case File => 1
    case Directory => 2
    case Module => 3
  }

  /** Modules first, then directories, then files; each kind by name. */
  predicate ListedBefore(a: ListedEntry, b: ListedEntry) {
    if a.entry.kind != b.entry.kind then Rank(b.entry.kind) < Rank(a.entry.kind)
    else Precedes(a.entry.display, b.entry.display)
  }

  lemma ListedOrder()
    ensures WeakOrder(ListedBefore)
  {
    forall a, b | ListedBefore(a, b)
      ensures !ListedBefore(b, a)
    {
      PrecedesTotal(a.entry.display, b.entry.display);
    }
    forall a, b, c | ListedBefore(a, c)
      ensures ListedBefore(a, b) || ListedBefore(b, c)
    {
      if a.entry.kind == b.entry.kind == c.entry.kind {
        PrecedesTotal(a.entry.display, b.entry.display);
        if Precedes(b.entry.display, a.entry.display) {
          PrecedesTransitive(b.entry.display, a.entry.display, c.entry.display);
        }
      }
    }
  }

  /** The children of the root with their names in full, in order. */
  ghost predicate Lines(module_: Prefixed, fname: Prefixed, children: seq<Dir>, entries: seq<ListedEntry>) {
    Ordered(ListedBefore, entries) && multiset(entries) == multiset(AllExpanded(module_, fname, children))
  }

  /** Modules come before directories and these before files; in each kind no name comes before one
      in front of it. */
  ghost predicate ByKindAndName(entries: seq<ListedEntry>) {
    forall i, j | 0 <= i < j < |entries| :: InListedOrder(entries[i].entry, entries[j].entry)
  }

  predicate InListedOrder(a: Entry, b: Entry) {
    && (b.kind == Module ==> a.kind == Module)
    && (b.kind == Directory ==> a.kind in {Module, Directory})
    && (b.kind == File ==> a.kind != StandaloneFile)
    && (a.kind == b.kind ==> !Precedes(b.display, a.display))
  }

  /** A module has its name in full below the module filter, everything else below the file filter. */
  ghost predicate InFull(module_: Prefixed, fname: Prefixed, entries: seq<ListedEntry>) {
    forall e | e in entries ::
      var p := if e.entry.kind == Module then module_ else fname;
      e.expanded == if e.entry.display == "" then p.filter else p.prefix + e.entry.display
  }

  lemma LinesMean(module_: Prefixed, fname: Prefixed, children: seq<Dir>, entries: seq<ListedEntry>)
    requires Lines(module_, fname, children, entries)
    ensures ByKindAndName(entries) && InFull(module_, fname, entries)
  {
    forall i, j | 0 <= i < j < |entries|
      ensures InListedOrder(entries[i].entry, entries[j].entry)
    {
      assert !ListedBefore(entries[j], entries[i]);
    }
    var all := AllExpanded(module_, fname, children);
    forall e | e in entries
      ensures exists i | 0 <= i < |all| :: all[i] == e
    {
      assert e in multiset(entries) && e in multiset(all);
    }
  }

  method ListEntries(module_: Prefixed, fname: Prefixed, children: seq<Dir>) returns (entries: seq<ListedEntry>)
    ensures Lines(module_, fname, children, entries)
    ensures Total(StatsOfEntries(entries)) == Total(StatsOf(children))
    ensures ByKindAndName(entries) && InFull(module_, fname, entries)
    ensures |children| == 1 ==> entries == [Expanded(module_, fname, children[0].entry)]
  {
    entries := [];
    ghost var all := AllExpanded(module_, fname, children);
    for i := 0 to |children|
      invariant entries == all[..i]
    {
      entries := entries + [Expanded(module_, fname, children[i].entry)];
    }
    assert entries == all;
    entries := StableSort(ListedBefore, entries);
    ListedOrder();
    SortOrdered(ListedBefore, all);
    SortKeeps(ListedBefore, all);
    MapPermuted(StatsOfListed, entries, all);
    TotalOfPermutation(StatsOfEntries(entries), StatsOfEntries(all));
    ExpandedStats(module_, fname, children);
    LinesMean(module_, fname, children, entries);
    if |children| == 1 {
      assert all[1..] == [];
    }
  }

  // ---------------------------------------------------------------------------
  // The projection

  /** The directory of a file that the filter names. */
  function StandaloneParent(filter: ReportFilter): Prefixed {
    match FindLast(filter.fname.filter, '/')
    case None => MakePrefixed("", "/")
    case Some(pos) => MakePrefixed(filter.fname.filter[..pos], "/")
  }

  /** The name under which a file that the filter names is listed. */
  function StandaloneName(filter: ReportFilter): string {
    StandaloneParent(filter).Clean(filter.fname.filter)
  }

  lemma PrefixOff(prefix: string, rest: string)
    ensures (prefix + rest)[|prefix|..] == rest && StartsWith(prefix + rest, prefix)
  {
  }

  lemma CleanedPath(dir: string, base: string)
    ensures MakePrefixed(dir, "/").Clean(dir + "/" + base)
            == if dir == "" || EndsWith(dir, "/") then "/" + base else base
  {
    assert dir + ("/" + base) == dir + "/" + base;
    if EndsWith(dir, "/") || dir == "" {
      PrefixOff(dir, "/" + base);
    } else {
      PrefixOff(dir + "/", base);
    }
  }

  lemma PathAgain(dir: string, base: string)
    ensures var parent := MakePrefixed(dir, "/");
            parent.ApplyTo(parent.Clean(dir + "/" + base)) == dir + "/" + base
            <==> base != "" || dir == "" || EndsWith(dir, "/")
  {
    CleanedPath(dir, base);
    assert dir + ("/" + base) == dir + "/" + base;
    assert |dir + "/" + base| > |dir|;
  }

  /** It is the last component of the path, unless the directory in front of it has no name or ends
      with a slash itself; then it keeps the slash. */
  lemma StandaloneNameIsBaseName(filter: ReportFilter)
    ensures match FindLast(filter.fname.filter, '/')
            case None => StandaloneName(filter) == filter.fname.filter
            case Some(pos) =>
              var dir, base := filter.fname.filter[..pos], filter.fname.filter[pos + 1..];
              StandaloneName(filter) == if dir == "" || EndsWith(dir, "/") then "/" + base else base
  {
    var whole := filter.fname.filter;
    match FindLast(whole, '/')
    case None =>
      PrefixOff("", whole);
      assert "" + whole == whole;
    case Some(pos) =>
      AtSlash(whole, pos);
      CleanedPath(whole[..pos], whole[pos + 1..]);
  }

  lemma AtSlash(whole: string, pos: nat)
    requires pos < |whole| && whole[pos] == '/'
    ensures whole == whole[..pos] + "/" + whole[pos + 1..]
  {
  }

  /** Its name in full is the whole path again, unless that ends in one slash behind a directory. */
  lemma StandaloneExpands(filter: ReportFilter)
    ensures StandaloneParent(filter).ApplyTo(StandaloneName(filter)) == filter.fname.filter
            <==> match FindLast(filter.fname.filter, '/')
                 case None => true
                 case Some(pos) =>
                   filter.fname.filter[pos + 1..] != "" || pos == 0 || EndsWith(filter.fname.filter[..pos], "/")
  {
    var whole := filter.fname.filter;
    match FindLast(whole, '/')
    case None =>
      PrefixOff("", whole);
      assert "" + whole == whole;
    case Some(pos) =>
      AtSlash(whole, pos);
      PathAgain(whole[..pos], whole[pos + 1..]);
  }

  /** What is listed of the files below the file filter, and why: the grown tree holds each kept file
      once, under its module and its path; the entries are, in order, the top of the same tree after
      propagation, which is compressed, has exact totals, and shows each file in its place exactly
      if no module without a name is joined; their totals are those of the kept files. */
  ghost predicate Listing(
    filter: ReportFilter, files: seq<FileStats>, entries: seq<ListedEntry>,
    modules: ModuleDirs, filteredOut: set<string>, verdicts: seq<Verdict>, order: seq<string>)
  {
    && Explains(filter, files, modules, filteredOut, verdicts) && IsOrder(order, FinalPlacesOf(filter, verdicts))
    && var grown := GrownTree(filter, files, verdicts, order);
    && ListedTree(filter, grown, Propagated(grown, filter.sep), entries)
    && multiset(RootLeaves(grown, filter.sep))
       == multiset(KeptLeaves(files, FinalPlacesOf(filter, verdicts), filter.sep, |filter.fname.prefix|))
    && LeavesAreFiles(filter, files, FinalPlacesOf(filter, verdicts), RootLeaves(grown, filter.sep))
    && (CleanPlaces(FinalPlacesOf(filter, verdicts), filter.sep) ==> RootLossless(grown))
    && Total(StatsOfEntries(entries)) == Total(KeptFiles(files, FinalPlacesOf(filter, verdicts)))
  }

  ghost predicate ListedTree(filter: ReportFilter, grown: Dir, tree: Dir, entries: seq<ListedEntry>) {
    && Lines(filter.module_, filter.fname, Cut(tree.children, filter.fname), entries)
    && ByKindAndName(entries) && InFull(filter.module_, filter.fname, entries)
    && Compressed(tree) && ExactTotals(tree)
    && (RootLeaves(tree, filter.sep) == RootLeaves(grown, filter.sep) <==> RootLossless(grown))
  }

  ghost predicate IsListing(filter: ReportFilter, files: seq<FileStats>, entries: seq<ListedEntry>) {
    exists modules, filteredOut, verdicts, order :: Listing(filter, files, entries, modules, filteredOut, verdicts, order)
  }

  /** The one line of a listing that is about one file. */
  function StandaloneEntry(filter: ReportFilter, file: FileStats): ListedEntry {
    ListedEntry(Entry(StandaloneFile, StandaloneName(filter), file.stats, file.previousName, file.diffKind),
                StandaloneParent(filter).ApplyTo(StandaloneName(filter)))
  }

  /** The listing of the file that the filter names. */
  method ListOne(filter: ReportFilter, only: FileStats) returns (entries: seq<ListedEntry>)
    requires IsPrefixed(filter.fname, "/") && only.filename == filter.fname.filter
    ensures entries == [StandaloneEntry(filter, only)]
  {
    hide AddFile, Propagated, Cut;
    var root := new DirEntry(Dir(MakeEntry(Module, ""), []));
    root.AddFile(filter.fname.filter, only);
    root.Propagate(filter.sep);
    StandaloneTree(filter, only);
    CutOne(filter, root, only);
    var file := root.children[0].entry;
    file := file.(kind := StandaloneFile, display := StandaloneName(filter));
    entries := ListEntries(filter.module_, StandaloneParent(filter), [Dir(file, [])]);
  }

  /** The chain of directories of one file is cut off. */
  method CutOne(filter: ReportFilter, root: DirEntry, ghost only: FileStats)
    requires Cut(root.children, filter.fname) == [Dir(MakeFile(only.filename, only), [])]
    modifies root`children
    ensures root.children == [Dir(MakeFile(only.filename, only), [])]
  {
    var cut := root.SwapDirectoryWithChildren(filter.fname);
  }

  method Project(filter: ReportFilter, report: seq<FileStats>) returns (entries: seq<ListedEntry>)
    requires filter.sep != "" && IsPrefixed(filter.fname, "/")
    ensures var files := FileProjection(filter, report);
            if IsStandalone(filter, files) then entries == [StandaloneEntry(filter, files[0])]
            else IsListing(filter, files, entries)
  {
    var files := ProjectFiles(filter, report);
    if |files| == 1 && files[0].filename == filter.fname.filter {
      entries := ListOne(filter, files[0]);
    } else {
      entries := ListTree(filter, files);
    }
  }

  /** The listing of more than one file. */
  method ListTree(filter: ReportFilter, files: seq<FileStats>) returns (entries: seq<ListedEntry>)
    requires filter.sep != ""
    ensures IsListing(filter, files, entries)
  {
    var root, modules, filteredOut, verdicts, order := BuildTree(filter, files);
    ghost var grown := root.Tree();
    ghost var kept := KeptLeaves(files, FinalPlacesOf(filter, verdicts), filter.sep, |filter.fname.prefix|);
    root.Propagate(filter.sep);
    var cut := root.SwapDirectoryWithChildren(filter.fname);
    ListedTotal(grown, kept, filter.sep, filter.fname, root.children);
    KeptLeavesStats(files, FinalPlacesOf(filter, verdicts), filter.sep, |filter.fname.prefix|);
    PropagatedListing(grown, kept, filter.sep);
    entries := ListEntries(filter.module_, filter.fname, root.children);
    assert Listing(filter, files, entries, modules, filteredOut, verdicts, order);
  }

  ghost function Cut(children: seq<Dir>, fname: Prefixed): seq<Dir> {
    if OnlyDirectory(children) then Cleaned(CutOff(children, ""), fname) else children
  }

  lemma ListedTotal(grown: Dir, kept: seq<Leaf>, sep: string, fname: Prefixed, listed: seq<Dir>)
    requires grown.entry == MakeEntry(Module, "") && ShapedForest(grown.children)
    requires multiset(ForestLeaves(grown.children, None, None, sep)) == multiset(kept)
    requires listed == Cut(Propagated(grown, sep).children, fname)
    ensures Total(StatsOf(listed)) == Total(LeafStats(kept))
  {
    var children := Propagated(grown, sep).children;
    PropagatedNormalises(grown, sep);
    if OnlyDirectory(children) {
      CutOffKeepsTotal(children, "");
      CleanedKeepsStats(CutOff(children, ""), fname);
    }
    ForestTotal(children);
    ForestLeavesCarryStats(grown.children, None, None, sep);
    MapPermuted(StatsOfLeaf, ForestLeaves(grown.children, None, None, sep), kept);
    TotalOfPermutation(FilesOfForest(grown.children), LeafStats(kept));
  }

  lemma StandaloneTree(filter: ReportFilter, file: FileStats)
    requires file.filename == filter.fname.filter && IsPrefixed(filter.fname, "/")
    ensures var tree := Propagated(Dir(MakeEntry(Module, ""), AddFile([], file.filename, file)), filter.sep);
            Cut(tree.children, filter.fname) == [Dir(MakeFile(file.filename, file), [])]
  {
    var name := file.filename;
    var root := Dir(MakeEntry(Module, ""), AddFile([], name, file));
    AddedFileIsChain(name, file, filter.sep);
    assert Propagated(root, filter.sep).children == Chain(name, file);
    ChainCutOff(name, file);
    assert filter.fname.Clean(name) == name;
  }

  /** After propagation the tree of a listing is compressed, its totals are exact, and it still shows
      every file under its full module name and path exactly if no module without a name is joined;
      it is enough that no module has an empty segment in its name. */
  lemma PropagatedListing(grown: Dir, kept: seq<Leaf>, sep: string)
    requires grown.entry == MakeEntry(Module, "") && sep != ""
    requires ShapedForest(grown.children) && InhabitedForest(grown.children)
    requires multiset(ForestLeaves(grown.children, None, None, sep)) == multiset(kept)
    ensures var tree := Propagated(grown, sep);
            && Compressed(tree) && ExactTotals(tree) && tree.entry.stats == Total(LeafStats(kept))
            && (RootLeaves(tree, sep) == RootLeaves(grown, sep) <==> RootLossless(grown))
    ensures multiset(RootLeaves(grown, sep)) == multiset(kept) && (NamedForest(grown.children) ==> RootLossless(grown))
  {
    PropagatedNormalises(grown, sep);
    ForestLeavesCarryStats(grown.children, None, None, sep);
    MapPermuted(StatsOfLeaf, ForestLeaves(grown.children, None, None, sep), kept);
    TotalOfPermutation(FilesOfForest(grown.children), LeafStats(kept));
    PropagateKeepsNamesIff(grown, sep);
    if NamedForest(grown.children) {
      NamedIsLossless(grown.children);
    }
  }

  // ---------------------------------------------------------------------------
  // Where the projection loses something

  lemma SlashAt(s: string, i: nat)
    ensures OccursAt(s, "/", i) <==> i < |s| && s[i] == '/'
  {
    if i < |s| {
      assert s[i..i + 1] == [s[i]];
    }
  }

  lemma Segments()
    ensures SplitModule("a//b", "/") == ("a", "/b") && SplitModule("/b", "/") == ("", "b")
    ensures SplitModule("b", "/") == ("b", "") && SplitModule("a/b", "/") == ("a", "b")
  {
    SplitAt("a//b", 1);
    SplitAt("/b", 0);
    SplitAt("a/b", 1);
    assert "a//b"[..1] == "a" && "a//b"[2..] == "/b" && "a/b"[..1] == "a" && "a/b"[2..] == "b";
    assert "/b"[..0] == "" && "/b"[1..] == "b";
    forall i: nat
      ensures !OccursAt("b", "/", i)
    {
      SlashAt("b", i);
    }
  }

  lemma SplitAt(name: string, pos: nat)
    requires pos < |name| && name[pos] == '/' && forall i | 0 <= i < pos :: name[i] != '/'
    ensures SplitModule(name, "/") == (name[..pos], name[pos + 1..])
  {
    SlashAt(name, pos);
    forall i | 0 <= i < pos
      ensures !OccursAt(name, "/", i)
    {
      SlashAt(name, i);
    }
  }

  /** A segment without a name is lost by propagation: the files of module `a//b` end up in `a/b`. */
  lemma EmptySegmentIsLost(file: FileStats)
    ensures var root := Dir(MakeEntry(Module, ""), AddModule([], "a//b", "/", [file], 0));
            RootLeaves(Propagated(root, "/"), "/") != RootLeaves(root, "/")
  {
    Segments();
    var files := AddModule([], "", "/", [file], 0);
    var b := Dir(MakeEntry(Module, "b"), files);
    var nameless := Dir(MakeEntry(Module, ""), [b]);
    NewModule("b", "", "b", "/", [file]);
    NewModule("/b", "b", "", "/", [file]);
    NewModule("a//b", "/b", "a", "/", [file]);
    var root := Dir(MakeEntry(Module, ""), AddModule([], "a//b", "/", [file], 0));
    AddModuleFills([], "a//b", "/", [file], 0);
    AddModuleLeaves([], "a//b", "/", [file], 0, None);
    assert root.children == [Dir(MakeEntry(Module, "a"), [nameless])];
    assert !Lossless(nameless);
    assert !LosslessForest([nameless]);
    assert !Lossless(root.children[0]);
    PropagateKeepsNamesIff(root, "/");
  }

  lemma NewModule(name: string, rest: string, display: string, sep: string, files: seq<FileStats>)
    requires name != "" && SplitModule(name, sep) == (display, rest)
    ensures AddModule([], name, sep, files, 0)
            == [Dir(MakeEntry(Module, display), AddModule([], rest, sep, files, 0))]
  {
    var empty := Dir(MakeEntry(Module, display), []);
    var none: seq<Dir> := [];
    assert none + [empty] == [empty];
  }

  /** A name that was cut off the tree starts below the file filter already; taking the filter's
      prefix off it again is harmless exactly if it does not start with it. */
  lemma ExpandedIsPathIff(fname: Prefixed, display: string)
    requires IsPrefixed(fname, "/") && display != ""
    ensures fname.ApplyTo(fname.Clean(display)) == fname.prefix + display
            <==> fname.prefix == "" || !StartsWith(display, fname.prefix)
  {
    if StartsWith(display, fname.prefix) {
      assert display == fname.prefix + display[|fname.prefix|..];
      assert |fname.filter| <= |fname.prefix|;
    } else {
      assert fname.Clean(display) == display;
    }
  }

  /** Below the filter `a`, two files in the directory `a/a` are listed as files of `a`. */
  lemma RepeatedDirectoryIsLost(dir: Dir, x: Entry, y: Entry, sep: string)
    requires dir.entry.kind == Directory && dir.entry.display == "a" && dir.children == [Dir(x, []), Dir(y, [])]
    requires x.kind == File && y.kind == File && x.display != "" && y.display != ""
    ensures var fname, listed := MakePrefixed("a", "/"), Cut([dir], MakePrefixed("a", "/"));
            && |listed| == 2 && |ForestLeaves([dir], None, None, sep)| == 2
            && ForestLeaves([dir], None, None, sep)[0].path == Some("a/" + x.display)
            && fname.ApplyTo(listed[0].entry.display) == "a/" + x.display != fname.prefix + "a/" + x.display
  {
    var fname := MakePrefixed("a", "/");
    assert fname == Prefixed("a", "a/");
    var inner := dir.children;
    assert inner[1..] == [Dir(y, [])] && inner[1..][1..] == [] && [dir][1..] == [];
    assert ForestLeaves(inner[1..], None, Some("a"), sep) == Leaves(inner[1], None, Some("a"), sep);
    assert ForestLeaves(inner, None, Some("a"), sep)
        == Leaves(inner[0], None, Some("a"), sep) + Leaves(inner[1], None, Some("a"), sep);
    assert "" + "a" + "/" == "a/";
    assert !OnlyDirectory(inner) && CutOff([dir], "") == Renamed(inner, "a/");
    assert fname.Clean("a/" + x.display) == x.display;
  }
}
