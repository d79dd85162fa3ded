/**
 The tree behind a report listing: modules hold modules, directories and files; directories hold
 directories and files.  The functions say what the tree operations compute; the lemmas say what
 they keep.
 */
module ProjectionTree {
  import opened Wrappers
  import opened Strings
  import opened CoverageStats
  import opened Sequences

  datatype EntryKind = StandaloneFile | File | Directory | Module

  /** A file of the report, as far as the listing looks at it. */
  datatype FileStats = FileStats(filename: string, stats: EntryStats, previousName: string, diffKind: int)

  datatype Entry = Entry(kind: EntryKind, display: string, stats: EntryStats, previousName: string, diffKind: int)

  datatype Dir = Dir(entry: Entry, children: seq<Dir>)

  function MakeEntry(kind: EntryKind, display: string): Entry {
    Entry(kind, display, NO_STATS, "", 0)
  }

  function MakeFile(display: string, file: FileStats): Entry {
    Entry(File, display, file.stats, file.previousName, file.diffKind)
  }

  // ---------------------------------------------------------------------------
  // Growing the tree

  /** The first child with the given kind and name, or the number of children. */
  function FindEntry(children: seq<Dir>, kind: EntryKind, display: string): (k: nat)
    ensures k <= |children|
    ensures k < |children| ==> children[k].entry.kind == kind && children[k].entry.display == display
  {
    if children == [] then 0
    else if children[0].entry.kind == kind && children[0].entry.display == display then 0
    else 1 + FindEntry(children[1..], kind, display)
  }

  function Level(children: seq<Dir>, kind: EntryKind, display: string): (r: (seq<Dir>, nat))
    ensures r.1 < |r.0|
  {
    var k := FindEntry(children, kind, display);
    (if k < |children| then children else children + [Dir(MakeEntry(kind, display), [])], k)
  }

  /** The first directory of a path and what follows its slash. */
  function SplitPath(filename: string): (r: Option<(string, string)>)
    ensures r.Some? ==> filename == r.value.0 + "/" + r.value.1
  {
    match Find(filename, "/", 0)
    case None => None
    case Some(pos) =>
      assert filename == filename[..pos] + filename[pos..pos + 1] + filename[pos + 1..];
      Some((filename[..pos], filename[pos + 1..]))
  }

  function AddFile(children: seq<Dir>, filename: string, file: FileStats): seq<Dir>
    decreases |filename|
  {
    match SplitPath(filename)
    case None => children + [Dir(MakeFile(filename, file), [])]
    case Some((display, rest)) =>
      var (all, k) := Level(children, Directory, display);
      all[k := Dir(all[k].entry, AddFile(all[k].children, rest, file))]
  }

  /** The part of a file's name that the listing shows below a file filter. */
  function Trimmed(filename: string, prefixLength: nat): string {
    if prefixLength < |filename| then filename[prefixLength..] else filename
  }

  function AddFiles(children: seq<Dir>, files: seq<FileStats>, prefixLength: nat): seq<Dir>
    decreases files
  {
    if files == [] then children
    else AddFiles(AddFile(children, Trimmed(files[0].filename, prefixLength), files[0]), files[1..], prefixLength)
  }

  /** The first segment of a module's name and what follows the separator behind it. */
  function SplitModule(name: string, sep: string): (r: (string, string))
    ensures name != "" ==> |r.1| < |name|
  {
    match Find(name, sep, 0)
    case Some(pos) => if sep == "" then (name, "") else (name[..pos], name[pos + |sep|..])
    case None => (name, "")
  }

  function AddModule(
    children: seq<Dir>, name: string, sep: string, files: seq<FileStats>, prefixLength: nat): seq<Dir>
    decreases |name|
  {
    if name == "" then AddFiles(children, files, prefixLength)
    else
      var (display, rest) := SplitModule(name, sep);
      var (all, k) := Level(children, Module, display);
      all[k := Dir(all[k].entry, AddModule(all[k].children, rest, sep, files, prefixLength))]
  }

  // ---------------------------------------------------------------------------
  // What a tree means: its files, each under its chain of modules and its path

  /** A name collected on the way down; nothing at all above the first segment. */
  type Trail = Option<string>

  function Extended(trail: Trail, sep: string, name: string): Trail {
    match trail
    case None => Some(name)
    case Some(head) => Some(head + sep + name)
  }

  lemma ExtendedTwice(trail: Trail, sep: string, a: string, b: string)
    ensures Extended(Extended(trail, sep, a), sep, b) == Extended(trail, sep, a + sep + b)
  {
    if trail.Some? {
      assert trail.value + sep + (a + sep + b) == (trail.value + sep + a) + sep + b;
    }
  }

  datatype Leaf = Leaf(modules: Trail, path: Trail, stats: EntryStats, previousName: string, diffKind: int)

  function Leaves(dir: Dir, modules: Trail, path: Trail, sep: string): seq<Leaf> {
    match dir.entry.kind
    case Module => ForestLeaves(dir.children, Extended(modules, sep, dir.entry.display), path, sep)
    case Directory => ForestLeaves(dir.children, modules, Extended(path, "/", dir.entry.display), sep)
    case _ =>
      [Leaf(modules, Extended(path, "/", dir.entry.display), dir.entry.stats, dir.entry.previousName,
            dir.entry.diffKind)]
  }

  function ForestLeaves(children: seq<Dir>, modules: Trail, path: Trail, sep: string): seq<Leaf> {
    if children == [] then []
    else Leaves(children[0], modules, path, sep) + ForestLeaves(children[1..], modules, path, sep)
  }

  /** Files hold nothing, and no file stands alone before the listing is cut out of the tree. */
  predicate Shaped(dir: Dir) {
    && dir.entry.kind != StandaloneFile
    && (dir.entry.kind == File ==> dir.children == [])
    && ShapedForest(dir.children)
  }

  predicate ShapedForest(children: seq<Dir>) {
    children == [] || (Shaped(children[0]) && ShapedForest(children[1..]))
  }

  // ---------------------------------------------------------------------------
  // Forests, child by child

  lemma {:induction false} ForestConcat(a: seq<Dir>, b: seq<Dir>, modules: Trail, path: Trail, sep: string)
    ensures ForestLeaves(a + b, modules, path, sep)
            == ForestLeaves(a, modules, path, sep) + ForestLeaves(b, modules, path, sep)
    ensures ShapedForest(a + b) <==> ShapedForest(a) && ShapedForest(b)
  {
    hide Shaped, Leaves;
    if a == [] {
      assert a + b == b;
    } else {
      assert a + b == [a[0]] + (a[1..] + b);
      assert ([a[0]] + (a[1..] + b))[1..] == a[1..] + b;
      ForestConcat(a[1..], b, modules, path, sep);
      Associative(Leaves(a[0], modules, path, sep), ForestLeaves(a[1..], modules, path, sep),
                  ForestLeaves(b, modules, path, sep));
    }
  }

  lemma ForestSplit(children: seq<Dir>, k: nat, modules: Trail, path: Trail, sep: string)
    requires k < |children|
    ensures ForestLeaves(children, modules, path, sep)
            == ForestLeaves(children[..k], modules, path, sep) + Leaves(children[k], modules, path, sep)
               + ForestLeaves(children[k + 1..], modules, path, sep)
    ensures ShapedForest(children)
            <==> ShapedForest(children[..k]) && Shaped(children[k]) && ShapedForest(children[k + 1..])
  {
    assert children == children[..k] + ([children[k]] + children[k + 1..]);
    ForestConcat(children[..k], [children[k]] + children[k + 1..], modules, path, sep);
    assert ([children[k]] + children[k + 1..])[1..] == children[k + 1..];
  }

  /** Replacing one child changes the leaves by what that child gained. */
  lemma ForestUpdate(
    children: seq<Dir>, k: nat, dir: Dir, modules: Trail, path: Trail, sep: string, gain: multiset<Leaf>)
    requires k < |children|
    requires multiset(Leaves(dir, modules, path, sep)) == multiset(Leaves(children[k], modules, path, sep)) + gain
    requires ShapedForest(children) && Shaped(dir)
    ensures ShapedForest(children[k := dir])
    ensures multiset(ForestLeaves(children[k := dir], modules, path, sep))
            == multiset(ForestLeaves(children, modules, path, sep)) + gain
  {
    ForestSplit(children, k, modules, path, sep);
    ForestSplit(children[k := dir], k, modules, path, sep);
    assert children[k := dir][..k] == children[..k];
    assert children[k := dir][k + 1..] == children[k + 1..];
  }

  /** Adding an empty module or directory adds no leaf. */
  lemma LevelLeaves(children: seq<Dir>, kind: EntryKind, display: string, modules: Trail, path: Trail, sep: string)
    requires ShapedForest(children) && kind in {Module, Directory}
    ensures var (all, k) := Level(children, kind, display);
            ShapedForest(all) && ForestLeaves(all, modules, path, sep) == ForestLeaves(children, modules, path, sep)
            && all[k].entry.kind == kind && all[k].entry.display == display && ShapedForest(all[k].children)
  {
    var empty := Dir(MakeEntry(kind, display), []);
    ForestConcat(children, [empty], modules, path, sep);
    assert [empty][1..] == [];
    assert Leaves(empty, modules, path, sep) == [] && Shaped(empty);
    assert ForestLeaves([empty], modules, path, sep) == [] && ShapedForest([empty]);
    var (all, k) := Level(children, kind, display);
    ForestSplit(all, k, modules, path, sep);
  }

  /** Growing the child of a level grows the tree by the same leaves. */
  lemma GrownLevel(children: seq<Dir>, kind: EntryKind, display: string, grown: seq<Dir>,
                   modules: Trail, path: Trail, sep: string, gain: multiset<Leaf>)
    requires ShapedForest(children) && ShapedForest(grown) && kind in {Module, Directory}
    requires var (all, k) := Level(children, kind, display);
             var innerModules := if kind == Module then Extended(modules, sep, display) else modules;
             var innerPath := if kind == Module then path else Extended(path, "/", display);
             multiset(ForestLeaves(grown, innerModules, innerPath, sep))
             == multiset(ForestLeaves(all[k].children, innerModules, innerPath, sep)) + gain
    ensures var (all, k) := Level(children, kind, display);
            var result := all[k := Dir(all[k].entry, grown)];
            ShapedForest(result)
            && multiset(ForestLeaves(result, modules, path, sep))
               == multiset(ForestLeaves(children, modules, path, sep)) + gain
  {
    hide ForestLeaves, ShapedForest;
    LevelLeaves(children, kind, display, modules, path, sep);
    var (all, k) := Level(children, kind, display);
    ForestUpdate(all, k, Dir(all[k].entry, grown), modules, path, sep, gain);
  }

  lemma NewFileLeaves(
    children: seq<Dir>, display: string, file: FileStats, modules: Trail, path: Trail, sep: string)
    requires ShapedForest(children)
    ensures var result := children + [Dir(MakeFile(display, file), [])];
            ShapedForest(result)
            && ForestLeaves(result, modules, path, sep)
               == ForestLeaves(children, modules, path, sep)
                  + [Leaf(modules, Extended(path, "/", display), file.stats, file.previousName, file.diffKind)]
  {
    var leaf := [Dir(MakeFile(display, file), [])];
    ForestConcat(children, leaf, modules, path, sep);
    assert leaf[1..] == [];
    assert Shaped(leaf[0]) && ShapedForest(leaf);
  }

  /** Adding a file adds exactly one leaf, under the full name given for it. */
  lemma {:induction false} AddFileLeaves(
    children: seq<Dir>, filename: string, file: FileStats, modules: Trail, path: Trail, sep: string)
    requires ShapedForest(children)
    ensures ShapedForest(AddFile(children, filename, file))
    ensures multiset(ForestLeaves(AddFile(children, filename, file), modules, path, sep))
            == multiset(ForestLeaves(children, modules, path, sep))
               + multiset{Leaf(modules, Extended(path, "/", filename), file.stats, file.previousName, file.diffKind)}
    decreases |filename|
  {
    match SplitPath(filename)
    case None =>
      NewFileLeaves(children, filename, file, modules, path, sep);
    case Some((display, rest)) =>
      var (all, k) := Level(children, Directory, display);
      LevelLeaves(children, Directory, display, modules, path, sep);
      var inner := Extended(path, "/", display);
      AddFileLeaves(all[k].children, rest, file, modules, inner, sep);
      ExtendedTwice(path, "/", display, rest);
      var leaf := Leaf(modules, Extended(path, "/", filename), file.stats, file.previousName, file.diffKind);
      GrownLevel(children, Directory, display, AddFile(all[k].children, rest, file), modules, path, sep, multiset{leaf});
  }

  ghost function FileLeaf(modules: Trail, file: FileStats, prefixLength: nat): Leaf {
    Leaf(modules, Some(Trimmed(file.filename, prefixLength)), file.stats, file.previousName, file.diffKind)
  }

  ghost function FileLeaves(modules: Trail, files: seq<FileStats>, prefixLength: nat): seq<Leaf> {
    if files == [] then []
    else [FileLeaf(modules, files[0], prefixLength)] + FileLeaves(modules, files[1..], prefixLength)
  }

  lemma OneMore(before: multiset<Leaf>, first: Leaf, later: seq<Leaf>)
    ensures (before + multiset{first}) + multiset(later) == before + multiset([first] + later)
  {
    assert multiset([first] + later) == multiset{first} + multiset(later);
  }

  lemma {:induction false} AddFilesLeaves(
    children: seq<Dir>, files: seq<FileStats>, prefixLength: nat, modules: Trail, sep: string)
    requires ShapedForest(children)
    ensures ShapedForest(AddFiles(children, files, prefixLength))
    ensures multiset(ForestLeaves(AddFiles(children, files, prefixLength), modules, None, sep))
            == multiset(ForestLeaves(children, modules, None, sep)) + multiset(FileLeaves(modules, files, prefixLength))
    decreases files
  {
    if files == [] {
    } else {
      var name := Trimmed(files[0].filename, prefixLength);
      var grown := AddFile(children, name, files[0]);
      AddFileLeaves(children, name, files[0], modules, None, sep);
      AddFilesLeaves(grown, files[1..], prefixLength, modules, sep);
      assert Extended(None, "/", name) == Some(name);
      OneMore(multiset(ForestLeaves(children, modules, None, sep)), FileLeaf(modules, files[0], prefixLength),
              FileLeaves(modules, files[1..], prefixLength));
    }
  }

  /** The chain of modules under which `AddModule` files things. */
  function ModuleTrail(trail: Trail, name: string, sep: string): Trail
    decreases |name|
  {
    if name == "" then trail
    else
      var (display, rest) := SplitModule(name, sep);
      ModuleTrail(Extended(trail, sep, display), rest, sep)
  }

  /** The trail with the name added, or with the name but for a separator at its end. */
  predicate Spells(result: Trail, trail: Trail, name: string, sep: string) {
    || result == Extended(trail, sep, name)
    || (EndsWith(name, sep) && result == Extended(trail, sep, name[..|name| - |sep|]))
  }

  lemma SpellsMore(result: Trail, trail: Trail, display: string, rest: string, sep: string)
    requires Spells(result, Extended(trail, sep, display), rest, sep)
    ensures Spells(result, trail, display + sep + rest, sep)
  {
    ExtendedTwice(trail, sep, display, rest);
    if EndsWith(rest, sep) {
      var name, short := display + sep + rest, rest[..|rest| - |sep|];
      ExtendedTwice(trail, sep, display, short);
      LongerEnd(display + sep, rest, sep);
      assert display + sep + short == (display + sep) + short;
    }
  }

  lemma LongerEnd(front: string, rest: string, sep: string)
    requires EndsWith(rest, sep)
    ensures EndsWith(front + rest, sep) && (front + rest)[..|front + rest| - |sep|] == front + rest[..|rest| - |sep|]
  {
    assert (front + rest)[|front + rest| - |sep|..] == rest[|rest| - |sep|..];
  }

  lemma SpellsLast(trail: Trail, name: string, sep: string)
    requires sep != "" && SplitModule(name, sep).1 == ""
    ensures Spells(Extended(trail, sep, SplitModule(name, sep).0), trail, name, sep)
  {
  }

  lemma SplitSpellsName(name: string, sep: string)
    requires sep != "" && SplitModule(name, sep).1 != ""
    ensures name == SplitModule(name, sep).0 + sep + SplitModule(name, sep).1
  {
  }

  /** That chain spells the module's name, except that one trailing separator is dropped. */
  lemma {:induction false} ModuleTrailSpellsName(trail: Trail, name: string, sep: string)
    requires name != "" && sep != ""
    ensures ModuleTrail(trail, name, sep) == Extended(trail, sep, name)
            || (EndsWith(name, sep)
                && ModuleTrail(trail, name, sep) == Extended(trail, sep, name[..|name| - |sep|]))
    decreases |name|
  {
    TrailSpells(trail, name, sep);
  }

  lemma {:induction false} TrailSpells(trail: Trail, name: string, sep: string)
    requires name != "" && sep != ""
    ensures Spells(ModuleTrail(trail, name, sep), trail, name, sep)
    decreases |name|
  {
    var (display, rest) := SplitModule(name, sep);
    if rest == "" {
      SpellsLast(trail, name, sep);
    } else {
      TrailSpells(Extended(trail, sep, display), rest, sep);
      SplitSpellsName(name, sep);
      SpellsMore(ModuleTrail(trail, name, sep), trail, display, rest, sep);
    }
  }

  /** Adding a module adds exactly its files, each once, under the module's chain. */
  lemma {:induction false} AddModuleLeaves(
    children: seq<Dir>, name: string, sep: string, files: seq<FileStats>, prefixLength: nat, trail: Trail)
    requires ShapedForest(children)
    ensures ShapedForest(AddModule(children, name, sep, files, prefixLength))
    ensures multiset(ForestLeaves(AddModule(children, name, sep, files, prefixLength), trail, None, sep))
            == multiset(ForestLeaves(children, trail, None, sep))
               + multiset(FileLeaves(ModuleTrail(trail, name, sep), files, prefixLength))
    decreases |name|
  {
    if name == "" {
      AddFilesLeaves(children, files, prefixLength, trail, sep);
    } else {
      var (display, rest) := SplitModule(name, sep);
      var (all, k) := Level(children, Module, display);
      LevelLeaves(children, Module, display, trail, None, sep);
      var inner := Extended(trail, sep, display);
      AddModuleLeaves(all[k].children, rest, sep, files, prefixLength, inner);
      GrownLevel(children, Module, display, AddModule(all[k].children, rest, sep, files, prefixLength), trail, None, sep,
        multiset(FileLeaves(ModuleTrail(trail, name, sep), files, prefixLength)));
    }
  }
}
