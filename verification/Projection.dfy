/**
 Projecting a report on its modules: the files are sorted by module and the tree of the listing is
 grown from them; which files it shows, and which it should but does not.
 */
module Projection {
  import opened Wrappers
  import opened Strings
  import opened Sequences
  import opened CoverageStats
  import opened ProjectionTree
  import opened Propagation
  import opened Prefixes
  import opened DirectoryTree
  import opened Classifying

  // ---------------------------------------------------------------------------
  // The files kept, and the module each one is listed under ("" for the root)

  /** A module with an empty name is replaced by the unmatched files, if those are listed. */
  ghost predicate Overwritten(verdicts: seq<Verdict>, unfiltered: bool) {
    unfiltered && Unmatched in verdicts
  }

  ghost function Placement(v: Verdict, unfiltered: bool, overwritten: bool): Option<string> {
    match v
    case Dropped => None
    case Unmatched => if unfiltered then Some("") else None
    case InModule(name) => if name == "" && overwritten then None else Some(name)
  }

  ghost function Placements(verdicts: seq<Verdict>, unfiltered: bool, overwritten: bool): (r: seq<Option<string>>)
    ensures |r| == |verdicts|
  {
    seq(|verdicts|, i requires 0 <= i < |verdicts| => Placement(verdicts[i], unfiltered, overwritten))
  }

  /** The files placed in one module, in order. */
  ghost function Selected(files: seq<FileStats>, places: seq<Option<string>>, name: string): seq<FileStats>
    requires |files| == |places|
  {
    if files == [] then []
    else (if places[0] == Some(name) then [files[0]] else []) + Selected(files[1..], places[1..], name)
  }

  /** The leaves of the files placed in the given modules. */
  ghost function PlacedLeaves(
    files: seq<FileStats>, places: seq<Option<string>>, names: set<string>, sep: string, prefixLength: nat): seq<Leaf>
    requires |files| == |places|
  {
    if files == [] then []
    else
      PlacedLeaf(files[0], places[0], names, sep, prefixLength)
      + PlacedLeaves(files[1..], places[1..], names, sep, prefixLength)
  }

  ghost function PlacedLeaf(
    file: FileStats, place: Option<string>, names: set<string>, sep: string, prefixLength: nat): seq<Leaf>
  {
    if place.Some? && place.value in names then [FileLeaf(ModuleTrail(None, place.value, sep), file, prefixLength)]
    else []
  }

  lemma {:induction false} FileLeavesConcat(trail: Trail, a: seq<FileStats>, b: seq<FileStats>, prefixLength: nat)
    ensures FileLeaves(trail, a + b, prefixLength) == FileLeaves(trail, a, prefixLength) + FileLeaves(trail, b, prefixLength)
    decreases a
  {
    if a == [] {
      assert a + b == b;
    } else {
      assert (a + b)[1..] == a[1..] + b;
      FileLeavesConcat(trail, a[1..], b, prefixLength);
    }
  }

  lemma OneMorePlace(file: FileStats, place: Option<string>, names: set<string>, name: string, sep: string, prefixLength: nat)
    requires name !in names
    ensures PlacedLeaf(file, place, names + {name}, sep, prefixLength)
            == PlacedLeaf(file, place, names, sep, prefixLength)
               + FileLeaves(ModuleTrail(None, name, sep), if place == Some(name) then [file] else [], prefixLength)
  {
    assert [file][1..] == [];
  }

  lemma {:induction false} OneMoreModule(files: seq<FileStats>, places: seq<Option<string>>, names: set<string>,
                                         name: string, sep: string, prefixLength: nat)
    requires |files| == |places| && name !in names
    ensures multiset(PlacedLeaves(files, places, names + {name}, sep, prefixLength))
            == multiset(PlacedLeaves(files, places, names, sep, prefixLength))
               + multiset(FileLeaves(ModuleTrail(None, name, sep), Selected(files, places, name), prefixLength))
    decreases files
  {
    if files == [] {
    } else {
      var first := if places[0] == Some(name) then [files[0]] else [];
      var trail := ModuleTrail(None, name, sep);
      OneMorePlace(files[0], places[0], names, name, sep, prefixLength);
      OneMoreModule(files[1..], places[1..], names, name, sep, prefixLength);
      FileLeavesConcat(trail, first, Selected(files[1..], places[1..], name), prefixLength);
      Regrouped(PlacedLeaf(files[0], places[0], names, sep, prefixLength), FileLeaves(trail, first, prefixLength),
                PlacedLeaves(files[1..], places[1..], names + {name}, sep, prefixLength),
                PlacedLeaves(files[1..], places[1..], names, sep, prefixLength),
                FileLeaves(trail, Selected(files[1..], places[1..], name), prefixLength));
    }
  }

  lemma Regrouped(p: seq<Leaf>, q: seq<Leaf>, all: seq<Leaf>, r: seq<Leaf>, s: seq<Leaf>)
    requires multiset(all) == multiset(r) + multiset(s)
    ensures multiset((p + q) + all) == multiset(p + r) + multiset(q + s)
  {
  }

  lemma {:induction false} NoModulesNoLeaves(
    files: seq<FileStats>, places: seq<Option<string>>, sep: string, prefixLength: nat)
    requires |files| == |places|
    ensures PlacedLeaves(files, places, {}, sep, prefixLength) == []
    decreases files
  {
    if files == [] {
    } else {
      NoModulesNoLeaves(files[1..], places[1..], sep, prefixLength);
    }
  }

  /** The leaves of all files that are placed anywhere. */
  ghost function KeptLeaves(files: seq<FileStats>, places: seq<Option<string>>, sep: string, prefixLength: nat): seq<Leaf>
    requires |files| == |places|
  {
    if files == [] then []
    else
      (match places[0]
       case Some(name) => [FileLeaf(ModuleTrail(None, name, sep), files[0], prefixLength)]
       case None => [])
      + KeptLeaves(files[1..], places[1..], sep, prefixLength)
  }

  lemma {:induction false} AllPlacesKept(
    files: seq<FileStats>, places: seq<Option<string>>, names: set<string>, sep: string, prefixLength: nat)
    requires |files| == |places| && forall i | 0 <= i < |places| && places[i].Some? :: places[i].value in names
    ensures PlacedLeaves(files, places, names, sep, prefixLength) == KeptLeaves(files, places, sep, prefixLength)
    decreases files
  {
    if files == [] {
    } else {
      assert places[0].Some? ==> places[0].value in names;
      assert forall i | 0 <= i < |places[1..]| :: places[1..][i] == places[i + 1];
      AllPlacesKept(files[1..], places[1..], names, sep, prefixLength);
    }
  }

  lemma {:induction false} SelectedSnoc(
    files: seq<FileStats>, places: seq<Option<string>>, file: FileStats, place: Option<string>, name: string)
    requires |files| == |places|
    ensures Selected(files + [file], places + [place], name)
            == Selected(files, places, name) + if place == Some(name) then [file] else []
    decreases files
  {
    if files == [] {
      assert files + [file] == [file] && places + [place] == [place];
      assert [file][1..] == [] && [place][1..] == [];
    } else {
      assert (files + [file])[1..] == files[1..] + [file] && (places + [place])[1..] == places[1..] + [place];
      SelectedSnoc(files[1..], places[1..], file, place, name);
      Associative(if places[0] == Some(name) then [files[0]] else [], Selected(files[1..], places[1..], name),
                  if place == Some(name) then [file] else []);
    }
  }

  lemma {:induction false} SelectedSame(
    files: seq<FileStats>, p: seq<Option<string>>, q: seq<Option<string>>, name: string)
    requires |files| == |p| == |q| && forall i | 0 <= i < |p| :: p[i] == Some(name) <==> q[i] == Some(name)
    ensures Selected(files, p, name) == Selected(files, q, name)
    decreases files
  {
    if files == [] {
    } else {
      assert forall i | 0 <= i < |p[1..]| :: p[1..][i] == p[i + 1] && q[1..][i] == q[i + 1];
      SelectedSame(files[1..], p[1..], q[1..], name);
    }
  }

  lemma {:induction false} SelectedSome(files: seq<FileStats>, places: seq<Option<string>>, name: string)
    requires |files| == |places|
    ensures Selected(files, places, name) != [] <==> Some(name) in places
    decreases files
  {
    if files == [] {
    } else {
      SelectedSome(files[1..], places[1..], name);
      assert places == [places[0]] + places[1..];
    }
  }

  /** The files by module, as the two passes over the files leave them. */
  ghost predicate Grouped(
    data: map<string, seq<FileStats>>, files: seq<FileStats>, places: seq<Option<string>>)
    requires |files| == |places|
  {
    && (forall name :: name in data <==> Some(name) in places)
    && (forall name | name in data :: data[name] == Selected(files, places, name))
  }

  /** One more file filed in its place. */
  function Filed(data: map<string, seq<FileStats>>, place: Option<string>, file: FileStats): map<string, seq<FileStats>> {
    match place
    case None => data
    case Some(name) => data[name := (if name in data then data[name] else []) + [file]]
  }

  lemma FiledAt(data: map<string, seq<FileStats>>, files: seq<FileStats>, places: seq<Option<string>>,
                file: FileStats, place: Option<string>, name: string)
    requires |files| == |places| && Grouped(data, files, places)
    ensures name in Filed(data, place, file) <==> Some(name) in places + [place]
    ensures name in Filed(data, place, file) ==>
              Filed(data, place, file)[name] == Selected(files + [file], places + [place], name)
  {
    SelectedSnoc(files, places, file, place, name);
    SelectedSome(files, places, name);
    assert Some(name) in places + [place] <==> Some(name) in places || place == Some(name);
    assert name in data <==> Some(name) in places;
    var was := Selected(files, places, name);
    assert name in data ==> data[name] == was;
    assert was + [] == was;
  }

  lemma GroupedSnoc(data: map<string, seq<FileStats>>, files: seq<FileStats>, places: seq<Option<string>>,
                    file: FileStats, place: Option<string>)
    requires |files| == |places| && Grouped(data, files, places)
    ensures Grouped(Filed(data, place, file), files + [file], places + [place])
  {
    forall name
      ensures name in Filed(data, place, file) <==> Some(name) in places + [place]
      ensures name in Filed(data, place, file) ==>
                Filed(data, place, file)[name] == Selected(files + [file], places + [place], name)
    {
      FiledAt(data, files, places, file, place, name);
    }
  }

  lemma UnplacedFiles(files: seq<FileStats>, verdicts: seq<Verdict>)
    requires |files| == |verdicts|
    ensures Selected(files, Unplaced(verdicts), "") != [] <==> Unmatched in verdicts
  {
    SelectedSome(files, Unplaced(verdicts), "");
    if Unmatched in verdicts {
      var i :| 0 <= i < |verdicts| && verdicts[i] == Unmatched;
      assert Unplaced(verdicts)[i] == Some("");
    }
  }

  /** The two passes place a file in the same module, except that the unmatched files go to the
      root and displace a module with an empty name. */
  lemma FinalPlaces(files: seq<FileStats>, verdicts: seq<Verdict>, name: string)
    requires |files| == |verdicts|
    ensures var after := Placements(verdicts, true, Unmatched in verdicts);
            var source := if name == "" && Unmatched in verdicts then Unplaced(verdicts)
                          else Placements(verdicts, false, false);
            Selected(files, after, name) == Selected(files, source, name)
            && (Some(name) in after <==> Some(name) in source)
  {
    var after := Placements(verdicts, true, Unmatched in verdicts);
    var source := if name == "" && Unmatched in verdicts then Unplaced(verdicts)
                  else Placements(verdicts, false, false);
    assert forall i | 0 <= i < |verdicts| :: verdicts[i] in verdicts;
    SelectedSame(files, after, source, name);
    SelectedSome(files, after, name);
    SelectedSome(files, source, name);
  }

  lemma GroupedOverwrite(
    data: map<string, seq<FileStats>>, files: seq<FileStats>, verdicts: seq<Verdict>, unmatched: seq<FileStats>)
    requires |files| == |verdicts| && Grouped(data, files, Placements(verdicts, false, false))
    requires unmatched == Selected(files, Unplaced(verdicts), "")
    ensures Grouped(if unmatched != [] then data["" := unmatched] else data, files,
                    Placements(verdicts, true, Unmatched in verdicts))
  {
    UnplacedFiles(files, verdicts);
    SelectedSome(files, Unplaced(verdicts), "");
    var after := Placements(verdicts, true, Unmatched in verdicts);
    var result := if unmatched != [] then data["" := unmatched] else data;
    forall name
      ensures (name in result <==> Some(name) in after)
              && (name in result ==> result[name] == Selected(files, after, name))
    {
      FinalPlaces(files, verdicts, name);
    }
  }

  ghost function Unplaced(verdicts: seq<Verdict>): (r: seq<Option<string>>)
    ensures |r| == |verdicts|
  {
    seq(|verdicts|, i requires 0 <= i < |verdicts| => if verdicts[i] == Unmatched then Some("") else None)
  }

  /** Every module that files are placed in has a name without empty segments. */
  ghost predicate CleanPlaces(places: seq<Option<string>>, sep: string) {
    forall name | Some(name) in places :: CleanName(name, sep)
  }

  // ---------------------------------------------------------------------------
  // Filling the tree

  /** Sorts the files into modules and grows the tree by exactly the kept ones.  A file that
      matched some directory is taken out of `files`. */
  method AddFilesTo(root: DirEntry, modules: ModuleDirs, filteredOut: set<string>, files: array<Option<FileStats>>,
                    sep: string, unfiltered: bool, prefixLength: nat, ghost all: seq<FileStats>)
    returns (ghost verdicts: seq<Verdict>, ghost order: seq<string>)
    requires ShapedForest(root.children)
    requires |all| == files.Length && forall i | 0 <= i < files.Length :: files[i] == Some(all[i])
    modifies root`children, files
    ensures |verdicts| == |all|
    ensures forall i | 0 <= i < |all| :: Decides(all[i].filename, modules, filteredOut, verdicts[i])
    ensures forall i | 0 <= i < |all| :: files[i] == if verdicts[i] == Unmatched then Some(all[i]) else None
    ensures var places := Placements(verdicts, unfiltered, Overwritten(verdicts, unfiltered));
            IsOrder(order, places)
            && root.children == AddedModules(old(root.children), order, all, places, sep, prefixLength)
            && HoldsKept(old(root.children), root.children, all, places, sep, prefixLength)
  {
    var moduleData, seen := SortOut(modules, filteredOut, files, all);
    verdicts := seen;
    ghost var places := Placements(verdicts, unfiltered, Overwritten(verdicts, unfiltered));
    if unfiltered {
      var nulModule := CollectLeft(files, all, verdicts);
      GroupedOverwrite(moduleData, all, verdicts, nulModule);
      if nulModule != [] {
        moduleData := moduleData["" := nulModule];
      }
    }
    assert Grouped(moduleData, all, places);
    ghost var start := root.children;
    order := AddModules(root, moduleData, sep, prefixLength, all, places);
    AddedModulesHold(start, order, all, places, sep, prefixLength);
  }

  lemma SortedOne(data: map<string, seq<FileStats>>, all: seq<FileStats>, verdicts: seq<Verdict>, v: Verdict)
    requires |verdicts| < |all| && Grouped(data, all[..|verdicts|], Placements(verdicts, false, false))
    ensures Grouped(Filed(data, Placement(v, false, false), all[|verdicts|]), all[..|verdicts| + 1],
                    Placements(verdicts + [v], false, false))
  {
    var i := |verdicts|;
    GroupedSnoc(data, all[..i], Placements(verdicts, false, false), all[i], Placement(v, false, false));
    assert all[..i + 1] == all[..i] + [all[i]];
    assert Placements(verdicts + [v], false, false) == Placements(verdicts, false, false) + [Placement(v, false, false)];
  }

  /** The pass that sends every file to its module, and takes out what matched anything. */
  method SortOut(modules: ModuleDirs, filteredOut: set<string>, files: array<Option<FileStats>>,
                 ghost all: seq<FileStats>)
    returns (moduleData: map<string, seq<FileStats>>, ghost verdicts: seq<Verdict>)
    requires |all| == files.Length && forall i | 0 <= i < files.Length :: files[i] == Some(all[i])
    modifies files
    ensures |verdicts| == |all|
    ensures forall i | 0 <= i < |all| :: Decides(all[i].filename, modules, filteredOut, verdicts[i])
    ensures forall i | 0 <= i < |all| :: files[i] == if verdicts[i] == Unmatched then Some(all[i]) else None
    ensures Grouped(moduleData, all, Placements(verdicts, false, false))
  {
    moduleData := map[];
    verdicts := [];
    var i := 0;
    assert files[..] == Left(all, []);
    while i < files.Length
      invariant 0 <= i <= files.Length == |all| && |verdicts| == i
      invariant SortedTo(modules, filteredOut, moduleData, files[..], all, verdicts)
    {
      ghost var v;
      moduleData, v := SortNext(modules, filteredOut, moduleData, files, i, all, verdicts);
      verdicts := verdicts + [v];
      i := i + 1;
    }
    SortedAll(modules, filteredOut, moduleData, files[..], all, verdicts);
    forall j | 0 <= j < |all|
      ensures files[j] == if verdicts[j] == Unmatched then Some(all[j]) else None
    {
      assert files[j] == files[..][j];
    }
  }

  /** The first files are sorted, and taken out if they matched. */
  ghost predicate SortedTo(modules: ModuleDirs, filteredOut: set<string>, data: map<string, seq<FileStats>>,
                           slots: seq<Option<FileStats>>, all: seq<FileStats>, verdicts: seq<Verdict>)
  {
    && |verdicts| <= |all| && slots == Left(all, verdicts)
    && (forall j | 0 <= j < |verdicts| :: Decides(all[j].filename, modules, filteredOut, verdicts[j]))
    && Grouped(data, all[..|verdicts|], Placements(verdicts, false, false))
  }

  lemma SortedNext(modules: ModuleDirs, filteredOut: set<string>, data: map<string, seq<FileStats>>,
                   slots: seq<Option<FileStats>>, all: seq<FileStats>, verdicts: seq<Verdict>, v: Verdict)
    requires SortedTo(modules, filteredOut, data, slots, all, verdicts) && |verdicts| < |all|
    requires Decides(all[|verdicts|].filename, modules, filteredOut, v)
    ensures slots[|verdicts|] == Some(all[|verdicts|])
    ensures SortedTo(modules, filteredOut, Filed(data, Placement(v, false, false), all[|verdicts|]),
                     slots[|verdicts| := if v == Unmatched then Some(all[|verdicts|]) else None], all, verdicts + [v])
  {
    SortedOne(data, all, verdicts, v);
    LeftStep(all, verdicts, v);
  }

  lemma SortedAll(modules: ModuleDirs, filteredOut: set<string>, data: map<string, seq<FileStats>>,
                  slots: seq<Option<FileStats>>, all: seq<FileStats>, verdicts: seq<Verdict>)
    requires SortedTo(modules, filteredOut, data, slots, all, verdicts) && |verdicts| == |all|
    ensures |slots| == |all| && forall j | 0 <= j < |all| :: slots[j] == if verdicts[j] == Unmatched then Some(all[j]) else None
    ensures forall j | 0 <= j < |all| :: Decides(all[j].filename, modules, filteredOut, verdicts[j])
    ensures Grouped(data, all, Placements(verdicts, false, false))
  {
    assert all[..|all|] == all;
  }

  /** One turn of that pass. */
  method SortNext(modules: ModuleDirs, filteredOut: set<string>, moduleData: map<string, seq<FileStats>>,
                  files: array<Option<FileStats>>, i: nat, ghost all: seq<FileStats>, ghost verdicts: seq<Verdict>)
    returns (data: map<string, seq<FileStats>>, ghost v: Verdict)
    requires i == |verdicts| < |all| == files.Length
    requires SortedTo(modules, filteredOut, moduleData, files[..], all, verdicts)
    modifies files
    ensures SortedTo(modules, filteredOut, data, files[..], all, verdicts + [v])
  {
    ghost var slots := files[..];
    assert files[i] == slots[i] == Some(all[i]);
    var verdict := Classify(files[i].value.filename, modules, filteredOut);
    SortedNext(modules, filteredOut, moduleData, slots, all, verdicts, verdict);
    data := SortFile(moduleData, files, i, verdict);
    v := verdict;
  }

  /** What is left of the files when the first ones have been sorted. */
  ghost function Left(all: seq<FileStats>, verdicts: seq<Verdict>): seq<Option<FileStats>> {
    seq(|all|, j requires 0 <= j < |all| =>
      if j >= |verdicts| || verdicts[j] == Unmatched then Some(all[j]) else None)
  }

  lemma LeftStep(all: seq<FileStats>, verdicts: seq<Verdict>, v: Verdict)
    requires |verdicts| < |all|
    ensures Left(all, verdicts + [v])
            == Left(all, verdicts)[|verdicts| := if v == Unmatched then Some(all[|verdicts|]) else None]
  {
  }

  /** One file: it goes to its module, and is taken out if anything matched. */
  method SortFile(moduleData: map<string, seq<FileStats>>, files: array<Option<FileStats>>, i: nat, v: Verdict)
    returns (data: map<string, seq<FileStats>>)
    requires i < files.Length && files[i].Some?
    modifies files
    ensures data == Filed(moduleData, Placement(v, false, false), old(files[i]).value)
    ensures files[..] == old(files[..])[i := if v == Unmatched then old(files[i]) else None]
  {
    data := moduleData;
    if v != Unmatched {
      if v.InModule? {
        data := data[v.name := (if v.name in data then data[v.name] else []) + [files[i].value]];
      }
      files[i] := None;
    }
  }

  method CollectLeft(files: array<Option<FileStats>>, ghost all: seq<FileStats>, ghost verdicts: seq<Verdict>)
    returns (left: seq<FileStats>)
    requires |all| == |verdicts| == files.Length
    requires forall i | 0 <= i < |all| :: files[i] == if verdicts[i] == Unmatched then Some(all[i]) else None
    ensures left == Selected(all, Unplaced(verdicts), "")
  {
    left := [];
    var i := 0;
    while i < files.Length
      invariant 0 <= i <= files.Length
      invariant left == Selected(all[..i], Unplaced(verdicts)[..i], "")
    {
      ghost var place := Unplaced(verdicts)[i];
      SelectedSnoc(all[..i], Unplaced(verdicts)[..i], all[i], place, "");
      assert all[..i + 1] == all[..i] + [all[i]];
      assert Unplaced(verdicts)[..i + 1] == Unplaced(verdicts)[..i] + [place];
      if files[i].Some? {
        left := left + [files[i].value];
      }
      i := i + 1;
    }
    assert all[..i] == all && Unplaced(verdicts)[..i] == Unplaced(verdicts);
  }

  /** The modules that files are placed in, by name. */
  ghost predicate IsOrder(order: seq<string>, places: seq<Option<string>>) {
    Ascends(order) && forall name :: name in order <==> Some(name) in places
  }

  ghost predicate Ascends(order: seq<string>) {
    forall i, j | 0 <= i < j < |order| :: Precedes(order[i], order[j])
  }

  /** The tree with these modules added, one after the other. */
  ghost function AddedModules(children: seq<Dir>, order: seq<string>, files: seq<FileStats>,
                              places: seq<Option<string>>, sep: string, prefixLength: nat): seq<Dir>
    requires |files| == |places|
    decreases |order|
  {
    if order == [] then children
    else
      var name := order[|order| - 1];
      var before := AddedModules(children, order[..|order| - 1], files, places, sep, prefixLength);
      ProjectionTree.AddModule(before, name, sep, Selected(files, places, name), prefixLength)
  }

  lemma OneMoreAdded(children: seq<Dir>, order: seq<string>, name: string, files: seq<FileStats>,
                     places: seq<Option<string>>, sep: string, prefixLength: nat)
    requires |files| == |places|
    ensures AddedModules(children, order + [name], files, places, sep, prefixLength)
            == ProjectionTree.AddModule(AddedModules(children, order, files, places, sep, prefixLength), name, sep,
                                        Selected(files, places, name), prefixLength)
  {
    assert (order + [name])[..|order|] == order;
  }

  function Names(order: seq<string>): set<string> {
    set name | name in order
  }

  /** What is done, in order, and in front of what is left. */
  ghost predicate DoneInOrder(order: seq<string>, left: set<string>, keys: set<string>) {
    Ascends(order) && left !! Names(order) && left + Names(order) == keys && forall d, n | d in order && n in left :: Precedes(d, n)
  }

  lemma NextInOrder(order: seq<string>, left: set<string>, keys: set<string>, name: string)
    requires DoneInOrder(order, left, keys) && IsLeast(name, left)
    ensures DoneInOrder(order + [name], left - {name}, keys)
  {
    forall d, n | d in order + [name] && n in left - {name}
      ensures Precedes(d, n)
    {
      PrecedesTotal(name, n);
    }
    assert forall i | 0 <= i < |order| :: order[i] in order;
    assert Names(order + [name]) == Names(order) + {name};
  }

  lemma {:induction false} AddedReaches(
    start: seq<Dir>, order: seq<string>, all: seq<FileStats>, places: seq<Option<string>>, sep: string, prefixLength: nat)
    requires |all| == |places| && ShapedForest(start) && Ascends(order) && forall name | name in order :: Some(name) in places
    ensures Reached(start, AddedModules(start, order, all, places, sep, prefixLength), all, places, Names(order), sep, prefixLength)
    decreases |order|
  {
    if order == [] {
      NoModulesNoLeaves(all, places, sep, prefixLength);
      assert Names(order) == {};
    } else {
      var n := |order| - 1;
      var before, name := order[..n], order[n];
      assert forall i | 0 <= i < n :: before[i] == order[i];
      LastIsNew(order);
      AddedReaches(start, before, all, places, sep, prefixLength);
      ReachedStep(start, AddedModules(start, before, all, places, sep, prefixLength), all, places, Names(before), name,
                  sep, prefixLength);
    }
  }

  lemma LastIsNew(order: seq<string>)
    requires order != [] && Ascends(order)
    ensures var before, name := order[..|order| - 1], order[|order| - 1];
            name !in Names(before) && Names(order) == Names(before) + {name}
  {
    var before, name := order[..|order| - 1], order[|order| - 1];
    assert order == before + [name];
    PrecedesTotal(name, name);
  }

  /** Adds the modules by name. */
  method AddModules(root: DirEntry, moduleData: map<string, seq<FileStats>>, sep: string, prefixLength: nat,
                    ghost all: seq<FileStats>, ghost places: seq<Option<string>>)
    returns (ghost order: seq<string>)
    requires |all| == |places| && Grouped(moduleData, all, places)
    modifies root`children
    ensures IsOrder(order, places)
    ensures root.children == AddedModules(old(root.children), order, all, places, sep, prefixLength)
  {
    ghost var start := root.children;
    var names := moduleData.Keys;
    order := [];
    while names != {}
      invariant DoneInOrder(order, names, moduleData.Keys)
      invariant root.children == AddedModules(start, order, all, places, sep, prefixLength)
    {
      LeastExists(names);
      var name :| IsLeast(name, names);
      OneMoreAdded(start, order, name, all, places, sep, prefixLength);
      NextInOrder(order, names, moduleData.Keys, name);
      root.AddModule(name, sep, moduleData[name], prefixLength);
      names := names - {name};
      order := order + [name];
    }
    assert Names(order) == moduleData.Keys;
  }

  /** Exactly the kept files are added, each in its place; no entry is left without files or, given
      clean module names, without a name. */
  ghost predicate HoldsKept(start: seq<Dir>, children: seq<Dir>, all: seq<FileStats>, places: seq<Option<string>>,
                            sep: string, prefixLength: nat)
    requires |all| == |places|
  {
    && ShapedForest(children) && Grows(start, children, places, sep)
    && multiset(ForestLeaves(children, None, None, sep))
       == multiset(ForestLeaves(start, None, None, sep)) + multiset(KeptLeaves(all, places, sep, prefixLength))
  }

  lemma AddedModulesHold(start: seq<Dir>, order: seq<string>, all: seq<FileStats>, places: seq<Option<string>>,
                         sep: string, prefixLength: nat)
    requires |all| == |places| && IsOrder(order, places) && ShapedForest(start)
    ensures HoldsKept(start, AddedModules(start, order, all, places, sep, prefixLength), all, places, sep, prefixLength)
  {
    AddedReaches(start, order, all, places, sep, prefixLength);
    AllDone(all, places, Names(order), sep, prefixLength);
  }

  lemma AllDone(files: seq<FileStats>, places: seq<Option<string>>, done: set<string>, sep: string, prefixLength: nat)
    requires |files| == |places| && forall name :: name in done <==> Some(name) in places
    ensures PlacedLeaves(files, places, done, sep, prefixLength) == KeptLeaves(files, places, sep, prefixLength)
  {
    assert forall i | 0 <= i < |places| && places[i].Some? :: places[i] in places && places[i].value in done;
    AllPlacesKept(files, places, done, sep, prefixLength);
  }

  /** The tree holds the files of the modules that are done. */
  ghost predicate Reached(start: seq<Dir>, children: seq<Dir>, all: seq<FileStats>, places: seq<Option<string>>,
                          done: set<string>, sep: string, prefixLength: nat)
    requires |all| == |places|
  {
    && ShapedForest(children) && Grows(start, children, places, sep)
    && multiset(ForestLeaves(children, None, None, sep))
       == multiset(ForestLeaves(start, None, None, sep)) + multiset(PlacedLeaves(all, places, done, sep, prefixLength))
  }

  lemma ReachedStep(start: seq<Dir>, children: seq<Dir>, all: seq<FileStats>, places: seq<Option<string>>,
                    done: set<string>, name: string, sep: string, prefixLength: nat)
    requires |all| == |places| && Reached(start, children, all, places, done, sep, prefixLength)
    requires name !in done && Some(name) in places
    ensures Reached(start, ProjectionTree.AddModule(children, name, sep, Selected(all, places, name), prefixLength),
                    all, places, done + {name}, sep, prefixLength)
  {
    ModuleAdded(children, multiset(ForestLeaves(start, None, None, sep)), all, places, done, name, sep, prefixLength);
    ModuleGrows(start, children, all, places, name, sep, prefixLength);
  }

  /** No entry is left without files or, given clean module names, without a name. */
  ghost predicate Grows(start: seq<Dir>, grown: seq<Dir>, places: seq<Option<string>>, sep: string) {
    && (InhabitedForest(start) ==> InhabitedForest(grown))
    && (NamedForest(start) && InhabitedForest(start) && CleanPlaces(places, sep) ==> NamedForest(grown))
  }

  lemma ModuleGrows(start: seq<Dir>, children: seq<Dir>, all: seq<FileStats>, places: seq<Option<string>>,
                    name: string, sep: string, prefixLength: nat)
    requires |all| == |places| && Some(name) in places && Grows(start, children, places, sep)
    ensures Grows(start, ProjectionTree.AddModule(children, name, sep, Selected(all, places, name), prefixLength), places, sep)
  {
    SelectedSome(all, places, name);
    if InhabitedForest(children) {
      AddModuleFills(children, name, sep, Selected(all, places, name), prefixLength);
    }
  }

  lemma ModuleAdded(children: seq<Dir>, base: multiset<Leaf>, all: seq<FileStats>, places: seq<Option<string>>,
                    done: set<string>, name: string, sep: string, prefixLength: nat)
    requires |all| == |places| && ShapedForest(children) && name !in done
    requires multiset(ForestLeaves(children, None, None, sep))
             == base + multiset(PlacedLeaves(all, places, done, sep, prefixLength))
    ensures var grown := ProjectionTree.AddModule(children, name, sep, Selected(all, places, name), prefixLength);
            ShapedForest(grown)
            && multiset(ForestLeaves(grown, None, None, sep))
               == base + multiset(PlacedLeaves(all, places, done + {name}, sep, prefixLength))
  {
    AddModuleLeaves(children, name, sep, Selected(all, places, name), prefixLength, None);
    OneMoreModule(all, places, done, name, sep, prefixLength);
  }

  // ---------------------------------------------------------------------------
  // The tree of a listing

  /** Why every listed file is there: the verdicts on the files below the file filter. */
  ghost predicate Explains(
    filter: ReportFilter, files: seq<FileStats>, modules: ModuleDirs, filteredOut: set<string>, verdicts: seq<Verdict>)
  {
    && Projected(filter, Entries(filter), modules, filteredOut)
    && |verdicts| == |files|
    && forall i | 0 <= i < |files| :: Decides(files[i].filename, modules, filteredOut, verdicts[i])
  }

  /** The final places of the files below the file filter. */
  ghost function FinalPlacesOf(filter: ReportFilter, verdicts: seq<Verdict>): (r: seq<Option<string>>)
    ensures |r| == |verdicts|
  {
    var unfiltered := filter.module_.filter == "";
    Placements(verdicts, unfiltered, Overwritten(verdicts, unfiltered))
  }

  /** The tree that the files are filled in. */
  ghost function GrownTree(filter: ReportFilter, files: seq<FileStats>, verdicts: seq<Verdict>, order: seq<string>): Dir
    requires |files| == |verdicts|
  {
    Dir(MakeEntry(Module, ""),
        AddedModules([], order, files, FinalPlacesOf(filter, verdicts), filter.sep, |filter.fname.prefix|))
  }

  /** The path of a file below the file filter: what follows the filter's prefix in its name, or all
      of it where nothing does. */
  predicate IsPath(fname: Prefixed, filename: string, path: string) {
    if StartsWith(filename, fname.prefix) && filename != fname.prefix then fname.prefix + path == filename
    else path == filename
  }

  predicate IsUnder(fname: Prefixed, filename: string) {
    IsPrefixed(fname, "/") && fname.Prefixes(filename)
  }

  /** Without a filter the path is the name; with one the name in full is the path applied to it. */
  lemma TrimmedIsPath(fname: Prefixed, filename: string)
    requires IsUnder(fname, filename)
    ensures var path := Trimmed(filename, |fname.prefix|);
            && IsPath(fname, filename, path)
            && (fname.prefix == "" ==> path == filename)
            && (StartsWith(filename, fname.prefix) && filename != fname.prefix ==> fname.ApplyTo(path) == filename)
  {
  }

  /** The leaf of a file below the filter, under the name of its module. */
  ghost predicate IsLeafOf(leaf: Leaf, filter: ReportFilter, file: FileStats, place: Option<string>) {
    && place.Some? && leaf.modules == ModuleTrail(None, place.value, filter.sep)
    && leaf.stats == file.stats && leaf.previousName == file.previousName && leaf.diffKind == file.diffKind
    && leaf.path.Some? && (IsUnder(filter.fname, file.filename) ==> IsPath(filter.fname, file.filename, leaf.path.value))
  }

  /** Each kept file has its leaf, and each leaf is that of a kept file. */
  ghost predicate LeavesAreFiles(
    filter: ReportFilter, files: seq<FileStats>, places: seq<Option<string>>, leaves: seq<Leaf>)
    requires |files| == |places|
  {
    && (forall i | 0 <= i < |files| && places[i].Some? ::
          exists leaf | leaf in leaves :: IsLeafOf(leaf, filter, files[i], places[i]))
    && (forall leaf | leaf in leaves :: exists i | 0 <= i < |files| :: IsLeafOf(leaf, filter, files[i], places[i]))
  }

  lemma FileLeafIsLeaf(filter: ReportFilter, file: FileStats, name: string)
    ensures IsLeafOf(FileLeaf(ModuleTrail(None, name, filter.sep), file, |filter.fname.prefix|), filter, file, Some(name))
  {
    if IsUnder(filter.fname, file.filename) {
      TrimmedIsPath(filter.fname, file.filename);
    }
  }

  lemma {:induction false} KeptLeavesAreFiles(filter: ReportFilter, files: seq<FileStats>, places: seq<Option<string>>)
    requires |files| == |places|
    ensures LeavesAreFiles(filter, files, places, KeptLeaves(files, places, filter.sep, |filter.fname.prefix|))
    decreases files
  {
    if files == [] {
    } else {
      var later := KeptLeaves(files[1..], places[1..], filter.sep, |filter.fname.prefix|);
      KeptLeavesAreFiles(filter, files[1..], places[1..]);
      match places[0] {
        case None => OneMoreFile(filter, files, places, [], later);
        case Some(name) =>
          var leaf := FileLeaf(ModuleTrail(None, name, filter.sep), files[0], |filter.fname.prefix|);
          FileLeafIsLeaf(filter, files[0], name);
          OneMoreFile(filter, files, places, [leaf], later);
      }
    }
  }

  lemma OneMoreFile(filter: ReportFilter, files: seq<FileStats>, places: seq<Option<string>>,
                    first: seq<Leaf>, later: seq<Leaf>)
    requires |files| == |places| && files != [] && LeavesAreFiles(filter, files[1..], places[1..], later)
    requires if places[0].None? then first == [] else |first| == 1 && IsLeafOf(first[0], filter, files[0], places[0])
    ensures LeavesAreFiles(filter, files, places, first + later)
  {
    hide IsLeafOf;
    var leaves := first + later;
    forall i | 0 <= i < |files| && places[i].Some?
      ensures exists leaf | leaf in leaves :: IsLeafOf(leaf, filter, files[i], places[i])
    {
      if i == 0 {
        assert first[0] in leaves;
      } else {
        assert files[i] == files[1..][i - 1] && places[i] == places[1..][i - 1];
        var leaf :| leaf in later && IsLeafOf(leaf, filter, files[1..][i - 1], places[1..][i - 1]);
        assert leaf in leaves;
      }
    }
    forall leaf | leaf in leaves
      ensures exists i | 0 <= i < |files| :: IsLeafOf(leaf, filter, files[i], places[i])
    {
      if leaf in later {
        var i :| 0 <= i < |files[1..]| && IsLeafOf(leaf, filter, files[1..][i], places[1..][i]);
        assert files[i + 1] == files[1..][i] && places[i + 1] == places[1..][i];
      } else {
        assert leaf == first[0];
      }
    }
  }

  /** The order of the leaves does not matter for that. */
  lemma ReorderedLeaves(filter: ReportFilter, files: seq<FileStats>, places: seq<Option<string>>, a: seq<Leaf>, b: seq<Leaf>)
    requires |files| == |places| && multiset(a) == multiset(b) && LeavesAreFiles(filter, files, places, a)
    ensures LeavesAreFiles(filter, files, places, b)
  {
    hide IsLeafOf;
    assert forall leaf :: leaf in a <==> leaf in multiset(a);
    assert forall leaf :: leaf in b <==> leaf in multiset(b);
  }

  /** What the tree of a listing holds: the kept files, each in its place; a path of its own is shown
      exactly if its file is due and not lost. */
  ghost predicate HoldsListing(filter: ReportFilter, files: seq<FileStats>, modules: ModuleDirs, filteredOut: set<string>,
                               verdicts: seq<Verdict>, children: seq<Dir>)
    requires |files| == |verdicts|
  {
    var places := FinalPlacesOf(filter, verdicts);
    && ShapedForest(children) && InhabitedForest(children)
    && multiset(ForestLeaves(children, None, None, filter.sep))
       == multiset(KeptLeaves(files, places, filter.sep, |filter.fname.prefix|))
    && LeavesAreFiles(filter, files, places, ForestLeaves(children, None, None, filter.sep))
    && (CleanPlaces(places, filter.sep) ==> NamedForest(children))
    && forall i | 0 <= i < |files| && OwnPath(files, i, |filter.fname.prefix|) ::
         IsShown(children, filter, files[i])
         <==> IsDue(filter, files[i].filename, modules, filteredOut) && !IsLost(filter, files, modules, filteredOut, i)
  }

  lemma GrownHolds(filter: ReportFilter, files: seq<FileStats>, modules: ModuleDirs, filteredOut: set<string>,
                   verdicts: seq<Verdict>, children: seq<Dir>)
    requires Explains(filter, files, modules, filteredOut, verdicts)
    requires HoldsKept([], children, files, FinalPlacesOf(filter, verdicts), filter.sep, |filter.fname.prefix|)
    ensures HoldsListing(filter, files, modules, filteredOut, verdicts, children)
  {
    assert ForestLeaves([], None, None, filter.sep) == [];
    ShownUnlessLost(filter, files, modules, filteredOut, verdicts, children);
    var places := FinalPlacesOf(filter, verdicts);
    KeptLeavesAreFiles(filter, files, places);
    ReorderedLeaves(filter, files, places, KeptLeaves(files, places, filter.sep, |filter.fname.prefix|),
                    ForestLeaves(children, None, None, filter.sep));
  }

  /** Builds the tree of a listing that is not about one file. */
  method BuildTree(filter: ReportFilter, files: seq<FileStats>)
    returns (root: DirEntry, ghost modules: ModuleDirs, ghost filteredOut: set<string>, ghost verdicts: seq<Verdict>,
             ghost order: seq<string>)
    requires filter.sep != ""
    ensures fresh(root)
    ensures Explains(filter, files, modules, filteredOut, verdicts)
    ensures IsOrder(order, FinalPlacesOf(filter, verdicts)) && root.Tree() == GrownTree(filter, files, verdicts, order)
    ensures HoldsListing(filter, files, modules, filteredOut, verdicts, root.children)
  {
    root := new DirEntry(Dir(MakeEntry(Module, ""), []));
    var mods, out := ModulesProjection(filter);
    modules, filteredOut := mods, out;
    var slots := new Option<FileStats>[|files|](i requires 0 <= i < |files| => Some(files[i]));
    verdicts, order := AddFilesTo(root, mods, out, slots, filter.sep, filter.module_.filter == "",
                                  |filter.fname.prefix|, files);
    GrownHolds(filter, files, modules, filteredOut, verdicts, root.children);
  }

  // ---------------------------------------------------------------------------
  // Which files are left out, in terms of directories and names

  /** A filtered-out directory matches, and more than any module's does. */
  ghost predicate IsFilteredOut(filename: string, modules: ModuleDirs, filteredOut: set<string>) {
    exists dir | dir in filteredOut ::
      MatchLength(dir, filename) > 0 && ModulesWithin(modules, filename, MatchLength(dir, filename) - 1)
  }

  ghost predicate MatchesNothing(filename: string, modules: ModuleDirs, filteredOut: set<string>) {
    ModulesWithin(modules, filename, 0) && DirsWithin(filteredOut, filename, 0)
  }

  /** A directory of the module without a name matches, and no directory matches more. */
  ghost predicate GoesToNameless(filename: string, modules: ModuleDirs, filteredOut: set<string>) {
    "" in modules
    && exists dir | dir in modules[""] ::
         MatchLength(dir, filename) > 0 && ModulesWithin(modules, filename, MatchLength(dir, filename))
         && DirsWithin(filteredOut, filename, MatchLength(dir, filename))
  }

  /** The file should be listed: not filtered out, and of some module, unless all files are listed. */
  ghost predicate IsDue(filter: ReportFilter, filename: string, modules: ModuleDirs, filteredOut: set<string>) {
    && !IsFilteredOut(filename, modules, filteredOut)
    && (filter.module_.filter == "" || !MatchesNothing(filename, modules, filteredOut))
  }

  ghost predicate SomeMatchNothing(files: seq<FileStats>, modules: ModuleDirs, filteredOut: set<string>) {
    exists j | 0 <= j < |files| :: MatchesNothing(files[j].filename, modules, filteredOut)
  }

  /** Its module is the one without a name, all files are listed, and another file matches nothing. */
  ghost predicate IsLost(filter: ReportFilter, files: seq<FileStats>, modules: ModuleDirs, filteredOut: set<string>, i: nat)
    requires i < |files|
  {
    && filter.module_.filter == ""
    && GoesToNameless(files[i].filename, modules, filteredOut)
    && SomeMatchNothing(files, modules, filteredOut)
  }

  lemma VerdictMeans(filename: string, modules: ModuleDirs, filteredOut: set<string>, v: Verdict)
    requires Decides(filename, modules, filteredOut, v)
    ensures v == Dropped <==> IsFilteredOut(filename, modules, filteredOut)
    ensures v == Unmatched <==> MatchesNothing(filename, modules, filteredOut)
    ensures v == InModule("") <==> GoesToNameless(filename, modules, filteredOut)
  {
    if IsFilteredOut(filename, modules, filteredOut) {
      VerdictsExclude(filename, modules, filteredOut, v, Dropped);
    }
    if MatchesNothing(filename, modules, filteredOut) {
      VerdictsExclude(filename, modules, filteredOut, v, Unmatched);
    }
    if GoesToNameless(filename, modules, filteredOut) {
      var dir :| dir in modules[""] && MatchLength(dir, filename) > 0
        && ModulesWithin(modules, filename, MatchLength(dir, filename))
        && DirsWithin(filteredOut, filename, MatchLength(dir, filename));
      assert Wins(modules, filteredOut, filename, "", MatchLength(dir, filename));
      VerdictsExclude(filename, modules, filteredOut, v, InModule(""));
    }
  }

  /** A file below the file filter is kept exactly if it is due and not lost. */
  lemma KeptUnlessLost(filter: ReportFilter, files: seq<FileStats>, modules: ModuleDirs, filteredOut: set<string>,
                       verdicts: seq<Verdict>, i: nat)
    requires Explains(filter, files, modules, filteredOut, verdicts) && i < |files|
    ensures FinalPlacesOf(filter, verdicts)[i].Some?
            <==> IsDue(filter, files[i].filename, modules, filteredOut) && !IsLost(filter, files, modules, filteredOut, i)
  {
    VerdictMeans(files[i].filename, modules, filteredOut, verdicts[i]);
    if Unmatched in verdicts {
      var j :| 0 <= j < |verdicts| && verdicts[j] == Unmatched;
      VerdictMeans(files[j].filename, modules, filteredOut, verdicts[j]);
    }
    if SomeMatchNothing(files, modules, filteredOut) {
      var j :| 0 <= j < |files| && MatchesNothing(files[j].filename, modules, filteredOut);
      VerdictMeans(files[j].filename, modules, filteredOut, verdicts[j]);
      assert verdicts[j] in verdicts;
    }
  }

  /** No file of another name is shown under the same path. */
  ghost predicate OwnPath(files: seq<FileStats>, i: nat, prefixLength: nat)
    requires i < |files|
  {
    forall j | 0 <= j < |files| && Trimmed(files[j].filename, prefixLength) == Trimmed(files[i].filename, prefixLength) ::
      files[j].filename == files[i].filename
  }

  ghost predicate HasPath(leaves: seq<Leaf>, path: string) {
    exists leaf | leaf in leaves :: leaf.path == Some(path)
  }

  ghost predicate IsShown(children: seq<Dir>, filter: ReportFilter, file: FileStats) {
    HasPath(ForestLeaves(children, None, None, filter.sep), Trimmed(file.filename, |filter.fname.prefix|))
  }

  lemma PathsConcat(a: seq<Leaf>, b: seq<Leaf>, path: string)
    ensures HasPath(a + b, path) <==> HasPath(a, path) || HasPath(b, path)
  {
    assert forall leaf :: leaf in a + b <==> leaf in a || leaf in b;
  }

  ghost predicate KeepsPath(files: seq<FileStats>, places: seq<Option<string>>, prefixLength: nat, path: string)
    requires |files| == |places|
  {
    exists j | 0 <= j < |files| :: places[j].Some? && Trimmed(files[j].filename, prefixLength) == path
  }

  lemma KeepsPathStep(files: seq<FileStats>, places: seq<Option<string>>, prefixLength: nat, path: string)
    requires |files| == |places| && files != []
    ensures KeepsPath(files, places, prefixLength, path)
            <==> (places[0].Some? && Trimmed(files[0].filename, prefixLength) == path)
                 || KeepsPath(files[1..], places[1..], prefixLength, path)
  {
    if KeepsPath(files[1..], places[1..], prefixLength, path) {
      var j :| 0 <= j < |files[1..]| && places[1..][j].Some? && Trimmed(files[1..][j].filename, prefixLength) == path;
      assert places[j + 1].Some? && Trimmed(files[j + 1].filename, prefixLength) == path;
    }
    if KeepsPath(files, places, prefixLength, path) {
      var j :| 0 <= j < |files| && places[j].Some? && Trimmed(files[j].filename, prefixLength) == path;
      assert j > 0 ==> files[1..][j - 1] == files[j] && places[1..][j - 1] == places[j];
    }
  }

  lemma {:induction false} KeptPaths(
    files: seq<FileStats>, places: seq<Option<string>>, sep: string, prefixLength: nat, path: string)
    requires |files| == |places|
    ensures HasPath(KeptLeaves(files, places, sep, prefixLength), path) <==> KeepsPath(files, places, prefixLength, path)
    decreases files
  {
    if files == [] {
    } else {
      var first := match places[0]
                   case Some(name) => [FileLeaf(ModuleTrail(None, name, sep), files[0], prefixLength)]
                   case None => [];
      KeptPaths(files[1..], places[1..], sep, prefixLength, path);
      PathsConcat(first, KeptLeaves(files[1..], places[1..], sep, prefixLength), path);
      KeepsPathStep(files, places, prefixLength, path);
      assert HasPath(first, path) <==> places[0].Some? && Trimmed(files[0].filename, prefixLength) == path by {
        if places[0].Some? {
          assert first[0] in first;
        }
      }
    }
  }

  lemma SamePaths(a: seq<Leaf>, b: seq<Leaf>, path: string)
    requires multiset(a) == multiset(b) && HasPath(a, path)
    ensures HasPath(b, path)
  {
    var leaf :| leaf in a && leaf.path == Some(path);
    assert leaf in multiset(a) && leaf in multiset(b);
  }

  lemma ShownUnlessLost(filter: ReportFilter, files: seq<FileStats>, modules: ModuleDirs, filteredOut: set<string>,
                        verdicts: seq<Verdict>, children: seq<Dir>)
    requires Explains(filter, files, modules, filteredOut, verdicts)
    requires multiset(ForestLeaves(children, None, None, filter.sep))
             == multiset(KeptLeaves(files, FinalPlacesOf(filter, verdicts), filter.sep, |filter.fname.prefix|))
    ensures forall i | 0 <= i < |files| && OwnPath(files, i, |filter.fname.prefix|) ::
              IsShown(children, filter, files[i])
              <==> IsDue(filter, files[i].filename, modules, filteredOut) && !IsLost(filter, files, modules, filteredOut, i)
  {
    var places, n := FinalPlacesOf(filter, verdicts), |filter.fname.prefix|;
    var leaves, kept := ForestLeaves(children, None, None, filter.sep), KeptLeaves(files, places, filter.sep, n);
    forall i | 0 <= i < |files| && OwnPath(files, i, n)
      ensures IsShown(children, filter, files[i])
              <==> IsDue(filter, files[i].filename, modules, filteredOut) && !IsLost(filter, files, modules, filteredOut, i)
    {
      var path := Trimmed(files[i].filename, n);
      KeptUnlessLost(filter, files, modules, filteredOut, verdicts, i);
      KeptPaths(files, places, filter.sep, n, path);
      if HasPath(leaves, path) {
        SamePaths(leaves, kept, path);
        var j :| 0 <= j < |files| && places[j].Some? && Trimmed(files[j].filename, n) == path;
        KeptUnlessLost(filter, files, modules, filteredOut, verdicts, j);
      }
      if HasPath(kept, path) {
        SamePaths(kept, leaves, path);
      }
    }
  }

  /** Without a module filter, a module whose name starts with the separator is listed without a name. */
  lemma LeadingSeparatorIsNameless(mods: Option<Modules>, fnameFilter: string, rest: string)
    ensures var filter := MakeFilter(mods, "", fnameFilter);
            ListedName(filter, filter.sep + rest) == "" && filter.module_.Prefixes(filter.sep + rest)
  {
    var filter := MakeFilter(mods, "", fnameFilter);
    assert OccursAt(filter.sep + rest, filter.sep, 0);
  }

  function SlashX(): Option<Modules> {
    Some(Modules("/", [ModuleInfo("/x", ["d"])]))
  }

  /** One module, below the module filter. */
  lemma OneModule(filter: ReportFilter, entry: ModuleInfo, name: string, modules: ModuleDirs, filteredOut: set<string>)
    requires Projected(filter, [entry], modules, filteredOut) && Lists(filter, entry, name)
    ensures modules == map[name := Dirs(entry.prefixes)] && filteredOut == {}
  {
    var entries := [entry];
    assert entries[0] == entry;
    forall other
      ensures other in modules <==> other == name
    {
      assert other == name ==> Lists(filter, entries[0], other);
    }
    forall dir
      ensures dir in modules[name] <==> dir in Dirs(entry.prefixes)
      ensures dir !in filteredOut
    {
      assert OwnsDir(filter, entries, name, dir) <==> dir in Dirs(entries[0].prefixes);
      assert !FiltersOut(filter, entries, dir);
    }
    assert modules.Keys == {name} && modules[name] == Dirs(entry.prefixes);
  }

  lemma ProjectionOfSlashX(modules: ModuleDirs, filteredOut: set<string>)
    requires Projected(MakeFilter(SlashX(), "", ""), Entries(MakeFilter(SlashX(), "", "")), modules, filteredOut)
    ensures modules == map["" := {"d"}] && filteredOut == {}
  {
    var filter, entry := MakeFilter(SlashX(), "", ""), ModuleInfo("/x", ["d"]);
    assert filter.sep + "x" == "/x";
    LeadingSeparatorIsNameless(SlashX(), "", "x");
    OneModule(filter, entry, "", modules, filteredOut);
    OneDir("d");
  }

  lemma OneDir(dir: string)
    requires !EndsWith(dir, "/")
    ensures Dirs([dir]) == {dir}
  {
    assert WithoutSlash(dir) == dir && dir in [dir];
  }

  lemma MatchesOfD()
    ensures MatchLength("d", "d/f") == 2 && MatchLength("d", "e") == 0
  {
    var p := MakePrefixed("d", "/");
    assert p == Prefixed("d", "d/");
    assert "d/" <= "d/f";
    assert "e"[0] != 'd';
  }

  /** With one directory, of the module without a name. */
  lemma OneDirectory(dir: string, filename: string, modules: ModuleDirs)
    requires modules == map["" := {dir}]
    ensures GoesToNameless(filename, modules, {}) <==> MatchLength(dir, filename) > 0
    ensures MatchesNothing(filename, modules, {}) <==> MatchLength(dir, filename) == 0
    ensures !IsFilteredOut(filename, modules, {})
  {
    var n := MatchLength(dir, filename);
    assert dir in modules[""] && ModulesWithin(modules, filename, n);
    assert DirsWithin({}, filename, n);
  }

  /** So with a module `/x` of the directory `d` and a file `e` outside, `d/f` is due, and lost. */
  lemma NamelessModuleIsLost(stats: EntryStats, modules: ModuleDirs, filteredOut: set<string>)
    requires Projected(MakeFilter(SlashX(), "", ""), Entries(MakeFilter(SlashX(), "", "")), modules, filteredOut)
    ensures var filter, files := MakeFilter(SlashX(), "", ""), [FileStats("d/f", stats, "", 0), FileStats("e", stats, "", 0)];
            && IsDue(filter, "d/f", modules, filteredOut) && IsLost(filter, files, modules, filteredOut, 0)
            && IsDue(filter, "e", modules, filteredOut) && !IsLost(filter, files, modules, filteredOut, 1)
            && OwnPath(files, 0, |filter.fname.prefix|) && OwnPath(files, 1, |filter.fname.prefix|)
  {
    ProjectionOfSlashX(modules, filteredOut);
    MatchesOfD();
    OneDirectory("d", "d/f", modules);
    OneDirectory("d", "e", modules);
    var files := [FileStats("d/f", stats, "", 0), FileStats("e", stats, "", 0)];
    assert files[1].filename == "e";
  }
}
