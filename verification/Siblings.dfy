/**
 Names beside each other in a listing: no two modules and no two directories share one, as long as
 no module without a name is joined.
 */
module Siblings {
  import opened Wrappers
  import opened Strings
  import opened ProjectionTree
  import opened Propagation
  import opened Prefixes
  import opened DirectoryTree
  import opened Classifying
  import opened Projection
  import opened Listings

  /** No two modules, and no two directories, share a name. */
  predicate Distinct(children: seq<Dir>) {
    forall i, j | 0 <= i < j < |children| :: !Alike(children[i].entry, children[j].entry)
  }

  predicate Alike(a: Entry, b: Entry) {
    a.kind in {Module, Directory} && a.kind == b.kind && a.display == b.display
  }

  /** The same on all levels. */
  predicate Deep(children: seq<Dir>) {
    Distinct(children) && forall i | 0 <= i < |children| :: Deep(children[i].children)
  }

  // ---------------------------------------------------------------------------
  // The grown tree

  predicate HasModule(children: seq<Dir>) {
    exists i | 0 <= i < |children| :: children[i].entry.kind == Module
  }

  /** Names are segments: no slash in that of a directory and no separator in that of a module; a
      module with modules in it is the first segment of whatever starts with it and a separator. */
  predicate IsSegment(entry: Entry, children: seq<Dir>, sep: string) {
    match entry.kind
    case Module =>
      Find(entry.display, sep, 0).None?
      && (HasModule(children) ==> Find(entry.display + sep, sep, 0) == Some(|entry.display|))
    case Directory => '/' !in entry.display && !HasModule(children)
    case _ => children == []
  }

  predicate Neat(children: seq<Dir>, sep: string) {
    Distinct(children) && forall i | 0 <= i < |children| :: NeatNode(children[i], sep)
  }

  predicate NeatNode(dir: Dir, sep: string) {
    IsSegment(dir.entry, dir.children, sep) && Neat(dir.children, sep)
  }

  lemma {:induction false} NotFound(children: seq<Dir>, kind: EntryKind, display: string)
    requires FindEntry(children, kind, display) == |children|
    ensures forall i | 0 <= i < |children| :: children[i].entry.kind != kind || children[i].entry.display != display
  {
    if children == [] {
    } else {
      NotFound(children[1..], kind, display);
      assert forall i | 0 < i < |children| :: children[i] == children[1..][i - 1];
    }
  }

  lemma {:induction false} SnocNeat(children: seq<Dir>, dir: Dir, sep: string)
    requires Neat(children, sep) && NeatNode(dir, sep)
    requires forall i | 0 <= i < |children| :: !Alike(children[i].entry, dir.entry)
    ensures Neat(children + [dir], sep)
  {
  }

  lemma {:induction false} LevelNeat(children: seq<Dir>, kind: EntryKind, display: string, sep: string)
    requires Neat(children, sep) && kind in {Module, Directory}
    requires if kind == Module then Find(display, sep, 0).None? else '/' !in display
    ensures Neat(Level(children, kind, display).0, sep)
  {
    if FindEntry(children, kind, display) == |children| {
      NotFound(children, kind, display);
      SnocNeat(children, Dir(MakeEntry(kind, display), []), sep);
    }
  }

  lemma {:induction false} UpdateNeat(children: seq<Dir>, k: nat, dir: Dir, sep: string)
    requires Neat(children, sep) && k < |children| && NeatNode(dir, sep) && dir.entry == children[k].entry
    ensures Neat(children[k := dir], sep)
  {
  }

  lemma NoSlashInFirst(filename: string)
    requires SplitPath(filename).Some?
    ensures '/' !in SplitPath(filename).value.0
  {
    var pos := Find(filename, "/", 0).value;
    forall i | 0 <= i < pos
      ensures filename[i] != '/'
    {
      SlashAt(filename, i);
    }
  }

  lemma {:induction false} AddFileNeat(children: seq<Dir>, filename: string, file: FileStats, sep: string)
    requires Neat(children, sep)
    ensures Neat(AddFile(children, filename, file), sep)
    ensures HasModule(AddFile(children, filename, file)) ==> HasModule(children)
    decreases |filename|
  {
    match SplitPath(filename)
    case None =>
      SnocNeat(children, Dir(MakeFile(filename, file), []), sep);
    case Some((display, rest)) =>
      var (all, k) := Level(children, Directory, display);
      NoSlashInFirst(filename);
      LevelNeat(children, Directory, display, sep);
      LevelHas(children, Directory, display);
      AddFileNeat(all[k].children, rest, file, sep);
      UpdateNeat(all, k, Dir(all[k].entry, AddFile(all[k].children, rest, file)), sep);
      UpdateHas(all, k, AddFile(all[k].children, rest, file));
  }

  lemma LevelHas(children: seq<Dir>, kind: EntryKind, display: string)
    ensures var (all, k) := Level(children, kind, display);
            all[k].entry.kind == kind && all[k].entry.display == display
    ensures kind != Module && HasModule(Level(children, kind, display).0) ==> HasModule(children)
  {
    var (all, k) := Level(children, kind, display);
    if kind != Module && HasModule(all) {
      var i :| 0 <= i < |all| && all[i].entry.kind == Module;
      assert all[i] == children[i];
    }
  }

  lemma UpdateHas(all: seq<Dir>, k: nat, grown: seq<Dir>)
    requires k < |all|
    ensures HasModule(all[k := Dir(all[k].entry, grown)]) ==> HasModule(all)
  {
    var r := all[k := Dir(all[k].entry, grown)];
    if HasModule(r) {
      var i :| 0 <= i < |r| && r[i].entry.kind == Module;
      assert all[i].entry.kind == Module;
    }
  }

  lemma {:induction false} AddFilesNeat(children: seq<Dir>, files: seq<FileStats>, prefixLength: nat, sep: string)
    requires Neat(children, sep)
    ensures Neat(AddFiles(children, files, prefixLength), sep)
    ensures HasModule(AddFiles(children, files, prefixLength)) ==> HasModule(children)
    decreases files
  {
    if files == [] {
    } else {
      AddFileNeat(children, Trimmed(files[0].filename, prefixLength), files[0], sep);
      AddFilesNeat(AddFile(children, Trimmed(files[0].filename, prefixLength), files[0]), files[1..], prefixLength, sep);
    }
  }

  lemma SplitIsSegment(name: string, sep: string)
    requires sep != ""
    ensures var (display, rest) := SplitModule(name, sep);
            Find(display, sep, 0).None? && (rest != "" ==> Find(display + sep, sep, 0) == Some(|display|))
  {
    var found := Find(name, sep, 0);
    if found.Some? {
      var display := name[..found.value];
      FoundFirst(name, display, sep);
    }
  }

  /** An occurrence does not depend on what follows it. */
  lemma {:induction false} OccursInPrefix(short: string, long: string, sub: string, i: nat)
    requires short <= long && i + |sub| <= |short|
    ensures OccursAt(short, sub, i) <==> OccursAt(long, sub, i)
  {
    assert short[i..i + |sub|] == long[i..i + |sub|];
  }

  lemma {:induction false} FoundFirst(name: string, display: string, sep: string)
    requires sep != "" && Find(name, sep, 0) == Some(|display|) && display == name[..|display|]
    ensures Find(display, sep, 0).None? && Find(display + sep, sep, 0) == Some(|display|)
  {
    var more := display + sep;
    assert more == name[..|display| + |sep|];
    forall i | 0 <= i
      ensures !OccursAt(display, sep, i) && (i < |display| ==> !OccursAt(more, sep, i))
    {
      if i + |sep| <= |display| {
        OccursInPrefix(display, name, sep, i);
      }
      if i < |display| {
        OccursInPrefix(more, name, sep, i);
      }
    }
    OccursInPrefix(more, name, sep, |display|);
  }

  lemma {:induction false} AddModuleNeat(children: seq<Dir>, name: string, sep: string, files: seq<FileStats>, prefixLength: nat)
    requires Neat(children, sep) && sep != ""
    ensures Neat(AddModule(children, name, sep, files, prefixLength), sep)
    decreases |name|
  {
    if name == "" {
      AddFilesNeat(children, files, prefixLength, sep);
    } else {
      var (display, rest) := SplitModule(name, sep);
      var (all, k) := Level(children, Module, display);
      SplitIsSegment(name, sep);
      LevelNeat(children, Module, display, sep);
      LevelHas(children, Module, display);
      AddModuleNeat(all[k].children, rest, sep, files, prefixLength);
      if rest == "" {
        AddFilesNeat(all[k].children, files, prefixLength, sep);
      }
      UpdateNeat(all, k, Dir(all[k].entry, AddModule(all[k].children, rest, sep, files, prefixLength)), sep);
    }
  }

  lemma {:induction false} AddedModulesNeat(
    order: seq<string>, files: seq<FileStats>, places: seq<Option<string>>, sep: string, prefixLength: nat)
    requires |files| == |places| && sep != ""
    ensures Neat(AddedModules([], order, files, places, sep, prefixLength), sep)
    decreases |order|
  {
    if order == [] {
    } else {
      var n := |order| - 1;
      AddedModulesNeat(order[..n], files, places, sep, prefixLength);
      AddModuleNeat(AddedModules([], order[..n], files, places, sep, prefixLength), order[n], sep,
                    Selected(files, places, order[n]), prefixLength);
    }
  }

  // ---------------------------------------------------------------------------
  // Propagation

  /** What a joined name starts with. */
  function FirstOf(entry: Entry, sep: string): string {
    match entry.kind
    case Module => SplitModule(entry.display, sep).0
    case Directory => (match SplitPath(entry.display) case None => entry.display case Some((first, _)) => first)
    case _ => entry.display
  }

  lemma {:induction false} FindInLonger(front: string, sep: string, more: string)
    requires sep != "" && Find(front + sep, sep, 0) == Some(|front|)
    ensures Find(front + sep + more, sep, 0) == Some(|front|)
  {
    var short, long := front + sep, front + sep + more;
    forall i | 0 <= i <= |front|
      ensures OccursAt(long, sep, i) <==> OccursAt(short, sep, i)
    {
      OccursInPrefix(short, long, sep, i);
    }
  }

  lemma {:induction false} NoSlashNoPath(front: string)
    requires '/' !in front
    ensures SplitPath(front).None?
  {
    forall i: nat
      ensures !OccursAt(front, "/", i)
    {
      SlashAt(front, i);
    }
  }

  lemma {:induction false} SlashIsFound(front: string)
    requires '/' !in front
    ensures Find(front + "/", "/", 0) == Some(|front|)
  {
    forall i | 0 <= i < |front|
      ensures !OccursAt(front + "/", "/", i)
    {
      SlashAt(front + "/", i);
    }
    SlashAt(front + "/", |front|);
  }

  lemma {:induction false} JoinedFirst(entry: Entry, below: string, sep: string)
    requires sep != "" && (entry.kind == Module || entry.kind == Directory)
    requires entry.kind == Module ==> entry.display != "" && Find(entry.display + sep, sep, 0) == Some(|entry.display|)
    requires entry.kind == Directory ==> '/' !in entry.display
    ensures FirstOf(entry.(display := MergedName(entry.kind, entry.display, below, sep)), sep) == entry.display
  {
    var name := MergedName(entry.kind, entry.display, below, sep);
    if entry.kind == Module {
      FindInLonger(entry.display, sep, below);
      assert name == entry.display + sep + below;
    } else {
      SlashIsFound(entry.display);
      FindInLonger(entry.display, "/", below);
      assert name == entry.display + "/" + below;
    }
    assert name[..|entry.display|] == entry.display;
  }

  /** A joined node starts with its own name. */
  lemma {:induction false} PropagatedFirst(dir: Dir, sep: string)
    requires IsSegment(dir.entry, dir.children, sep) && Lossless(dir) && sep != ""
    ensures var r := Propagated(dir, sep).entry; r.kind == dir.entry.kind && FirstOf(r, sep) == dir.entry.display
  {
    var children := PropagatedForest(dir.children, sep);
    if dir.entry.kind == Directory {
      NoSlashNoPath(dir.entry.display);
    }
    if |children| == 1 && children[0].entry.kind == dir.entry.kind && dir.entry.kind in {Module, Directory} {
      PropagatedKind(dir.children, sep);
      assert dir.entry.kind == Module ==> HasModule(dir.children);
      JoinedFirst(dir.entry, children[0].entry.display, sep);
    }
  }

  lemma PropagatedKind(children: seq<Dir>, sep: string)
    requires |children| == 1
    ensures PropagatedForest(children, sep)[0].entry.kind == children[0].entry.kind
  {
  }

  lemma {:induction false} LosslessAt(children: seq<Dir>, i: nat)
    requires LosslessForest(children) && i < |children|
    ensures Lossless(children[i])
  {
    if i == 0 {
    } else {
      LosslessAt(children[1..], i - 1);
    }
  }

  lemma {:induction false} PropagatedDistinct(children: seq<Dir>, sep: string)
    requires Neat(children, sep) && LosslessForest(children) && sep != ""
    ensures Distinct(PropagatedForest(children, sep))
  {
    var r := PropagatedForest(children, sep);
    forall i, j | 0 <= i < j < |r|
      ensures !Alike(r[i].entry, r[j].entry)
    {
      PropagatedAt(children, i, sep);
      PropagatedAt(children, j, sep);
      LosslessAt(children, i);
      LosslessAt(children, j);
      assert NeatNode(children[i], sep) && NeatNode(children[j], sep);
      PropagatedFirst(children[i], sep);
      PropagatedFirst(children[j], sep);
      assert !Alike(children[i].entry, children[j].entry);
    }
  }

  lemma {:induction false} PropagatedDeep(children: seq<Dir>, sep: string)
    requires Neat(children, sep) && LosslessForest(children) && sep != ""
    ensures Deep(PropagatedForest(children, sep))
    decreases children
  {
    var r := PropagatedForest(children, sep);
    PropagatedDistinct(children, sep);
    forall i | 0 <= i < |r|
      ensures Deep(r[i].children)
    {
      PropagatedAt(children, i, sep);
      LosslessAt(children, i);
      assert NeatNode(children[i], sep);
      PropagatedDeep(children[i].children, sep);
      OnlyChildDeep(children[i], sep);
    }
  }

  /** The children of a node, or of its only child when the two are joined. */
  lemma OnlyChildDeep(dir: Dir, sep: string)
    requires Deep(PropagatedForest(dir.children, sep))
    ensures Deep(Propagated(dir, sep).children)
  {
  }

  /** In a listing no two modules and no two directories beside each other share a name, as long as no
      module without a name is joined. */
  lemma ListingNamesDiffer(filter: ReportFilter, files: seq<FileStats>, verdicts: seq<Verdict>, order: seq<string>)
    requires |files| == |verdicts| && filter.sep != "" && RootLossless(GrownTree(filter, files, verdicts, order))
    ensures Deep(Propagated(GrownTree(filter, files, verdicts, order), filter.sep).children)
  {
    var grown := GrownTree(filter, files, verdicts, order);
    AddedModulesNeat(order, files, FinalPlacesOf(filter, verdicts), filter.sep, |filter.fname.prefix|);
    PropagatedDeep(grown.children, filter.sep);
    OnlyChildDeep(grown, filter.sep);
  }

  /** The same for what is listed, unless the file filter's prefix is taken off some of the names. */
  lemma {:induction false} ListedNamesDiffer(children: seq<Dir>, fname: Prefixed)
    requires Deep(children)
    requires fname.prefix != "" ==>
               forall i | 0 <= i < |CutOff(children, "")| :: !StartsWith(CutOff(children, "")[i].entry.display, fname.prefix)
    ensures Distinct(Cut(children, fname))
  {
    if OnlyDirectory(children) {
      CutOffDistinct(children, "");
      var cut := CutOff(children, "");
      forall i | 0 <= i < |cut|
        ensures Cleaned(cut, fname)[i].entry == cut[i].entry
      {
        assert fname.prefix == "" ==> cut[i].entry.display[0..] == cut[i].entry.display;
      }
    }
  }

  lemma {:induction false} CutOffDistinct(children: seq<Dir>, prefix: string)
    requires Deep(children)
    ensures Distinct(CutOff(children, prefix))
    decreases children
  {
    if OnlyDirectory(children) {
      CutOffDistinct(children[0].children, prefix + children[0].entry.display + "/");
    } else {
      var r := Renamed(children, prefix);
      forall i, j | 0 <= i < j < |r|
        ensures !Alike(r[i].entry, r[j].entry)
      {
        assert !Alike(children[i].entry, children[j].entry);
        SamePrefix(prefix, children[i].entry.display, children[j].entry.display);
      }
    }
  }

  lemma SamePrefix(prefix: string, a: string, b: string)
    ensures prefix + a == prefix + b <==> a == b
  {
    assert (prefix + a)[|prefix|..] == a && (prefix + b)[|prefix|..] == b;
  }

  // ---------------------------------------------------------------------------
  // A joined module without a name can take the name of the module beside it

  lemma {:induction false} Unjoined(dir: Dir, sep: string)
    requires dir.entry.kind == Module && !HasModule(dir.children)
    ensures Propagated(dir, sep).entry.kind == Module && Propagated(dir, sep).entry.display == dir.entry.display
  {
    if |dir.children| == 1 {
      PropagatedKind(dir.children, sep);
    }
  }

  lemma {:induction false} Twins(x: Dir, y: Dir, sep: string)
    requires x.entry.kind == Module && y.entry.kind == Module && x.entry.display == y.entry.display
    requires !HasModule(x.children) && !HasModule(y.children)
    ensures !Distinct(PropagatedForest([Dir(MakeEntry(Module, ""), [x]), y], sep))
  {
    var nameless, children := Dir(MakeEntry(Module, ""), [x]), [Dir(MakeEntry(Module, ""), [x]), y];
    var r := PropagatedForest(children, sep);
    Unjoined(x, sep);
    Unjoined(y, sep);
    PropagatedAt(children, 0, sep);
    PropagatedAt(children, 1, sep);
    PropagatedAt([x], 0, sep);
    assert "" + x.entry.display == x.entry.display;
    assert PropagatedForest([x], sep)[0] == Propagated(x, sep);
    assert Propagated(nameless, sep).entry.display == x.entry.display;
    assert Alike(r[0].entry, r[1].entry);
  }

  /** The modules `a//b` and `a/b` are listed as two modules `b` of `a`. */
  lemma {:induction false} NamelessTwin(x: FileStats, y: FileStats)
    ensures var root := Dir(MakeEntry(Module, ""), AddModule(AddModule([], "a//b", "/", [x], 0), "a/b", "/", [y], 0));
            !Distinct(Propagated(root, "/").children)
  {
    Segments();
    var first, second := AddModule([], "", "/", [x], 0), AddModule([], "", "/", [y], 0);
    var b, c := Dir(MakeEntry(Module, "b"), first), Dir(MakeEntry(Module, "b"), second);
    var nameless := Dir(MakeEntry(Module, ""), [b]);
    NewModule("b", "", "b", "/", [x]);
    NewModule("/b", "b", "", "/", [x]);
    NewModule("a//b", "/b", "a", "/", [x]);
    assert AddModule([], "a//b", "/", [x], 0) == [Dir(MakeEntry(Module, "a"), [nameless])];
    SecondModule(nameless, c, y);
    AddFilesNeat([], [x], 0, "/");
    AddFilesNeat([], [y], 0, "/");
    Twins(b, c, "/");
    JoinedWithRoot(Dir(MakeEntry(Module, "a"), [nameless, c]), "/");
  }

  lemma SecondModule(nameless: Dir, c: Dir, y: FileStats)
    requires nameless.entry == MakeEntry(Module, "") && c == Dir(MakeEntry(Module, "b"), AddModule([], "", "/", [y], 0))
    requires SplitModule("a/b", "/") == ("a", "b") && SplitModule("b", "/") == ("b", "")
    ensures AddModule([Dir(MakeEntry(Module, "a"), [nameless])], "a/b", "/", [y], 0)
            == [Dir(MakeEntry(Module, "a"), [nameless, c])]
  {
    var a := Dir(MakeEntry(Module, "a"), [nameless]);
    var empty := Dir(MakeEntry(Module, "b"), []);
    assert [nameless][1..] == [] && [nameless] + [empty] == [nameless, empty];
    assert FindEntry([nameless], Module, "b") == 1;
    assert Level([nameless], Module, "b") == ([nameless, empty], 1);
    assert AddModule([nameless], "b", "/", [y], 0) == [nameless, c];
    assert Level([a], Module, "a") == ([a], 0);
  }

  /** The root takes over the children of its only module. */
  lemma JoinedWithRoot(a: Dir, sep: string)
    requires a.entry.kind == Module && |a.children| > 1
    ensures Propagated(Dir(MakeEntry(Module, ""), [a]), sep).children == PropagatedForest(a.children, sep)
  {
    PropagatedAt([a], 0, sep);
  }
}
