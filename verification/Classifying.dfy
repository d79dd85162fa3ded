/**
 Which directories belong to a module and which are filtered out, and where that sends a file: to
 the module with the longest matching directory, unless a filtered-out directory matches better.
 */
module Classifying {
  import opened Wrappers
  import opened Strings
  import opened Prefixes

  datatype ModuleInfo = ModuleInfo(name: string, prefixes: seq<string>)

  datatype Modules = Modules(separator: string, entries: seq<ModuleInfo>)

  datatype ReportFilter = ReportFilter(mods: Option<Modules>, sep: string, module_: Prefixed, fname: Prefixed)

  function MakeFilter(mods: Option<Modules>, moduleFilter: string, fnameFilter: string): (r: ReportFilter)
    ensures r.sep != "" && IsPrefixed(r.fname, "/")
  {
    var own := if mods.Some? then mods.value.separator else "";
    var sep := if own == "" then "/" else own;
    ReportFilter(mods, sep, MakePrefixed(moduleFilter, sep), MakePrefixed(fnameFilter, "/"))
  }

  // ---------------------------------------------------------------------------
  // Which directories belong to a module, and which are filtered out

  type ModuleDirs = map<string, set<string>>

  function WithoutSlash(prefix: string): string {
    if prefix != "" && EndsWith(prefix, "/") then prefix[..|prefix| - 1] else prefix
  }

  /** The part of a module's name that is listed below the module filter. */
  function ListedName(filter: ReportFilter, name: string): string {
    match Find(name, filter.sep, |filter.module_.prefix|)
    case None => name
    case Some(pos) => name[..pos]
  }

  /** Below the module filter a name is listed up to the end of its next segment; the filter itself, and
      a name whose last segment this is, are listed as they are. */
  lemma ListedNameMeans(filter: ReportFilter, segment: string, more: string)
    requires filter.sep != ""
    ensures Find(segment + filter.sep, filter.sep, 0) == Some(|segment|) ==>
              ListedName(filter, filter.module_.prefix + segment + filter.sep + more) == filter.module_.prefix + segment
    ensures Find(segment, filter.sep, 0).None? ==>
              ListedName(filter, filter.module_.prefix + segment) == filter.module_.prefix + segment
    ensures |filter.module_.filter| <= |filter.module_.prefix| ==>
              ListedName(filter, filter.module_.filter) == filter.module_.filter
  {
    hide Find, OccursAt, ListedName;
    if Find(segment + filter.sep, filter.sep, 0) == Some(|segment|) {
      ListedToSegment(filter, segment, more);
    }
    if Find(segment, filter.sep, 0).None? {
      FindBehind(filter.module_.prefix, segment, filter.sep);
      ListedWhole(filter, filter.module_.prefix + segment);
    }
    if |filter.module_.filter| <= |filter.module_.prefix| {
      ListedShort(filter, filter.module_.filter);
    }
  }

  lemma ListedToSegment(filter: ReportFilter, segment: string, more: string)
    requires Find(segment + filter.sep, filter.sep, 0) == Some(|segment|)
    ensures ListedName(filter, filter.module_.prefix + segment + filter.sep + more) == filter.module_.prefix + segment
  {
    hide Find, OccursAt;
    var prefix, text := filter.module_.prefix, segment + filter.sep + more;
    FindInFront(segment + filter.sep, more, filter.sep);
    FindBehind(prefix, text, filter.sep);
    assert prefix + segment + filter.sep + more == prefix + text && (prefix + text)[..|prefix| + |segment|] == prefix + segment;
  }

  lemma ListedWhole(filter: ReportFilter, name: string)
    requires Find(name, filter.sep, |filter.module_.prefix|).None? || |name| < |filter.module_.prefix| + |filter.sep|
    ensures ListedName(filter, name) == name
  {
  }

  lemma ListedShort(filter: ReportFilter, name: string)
    requires filter.sep != "" && |name| <= |filter.module_.prefix|
    ensures ListedName(filter, name) == name
  {
  }

  lemma OccursBehind(prefix: string, text: string, sep: string, i: nat)
    ensures OccursAt(prefix + text, sep, |prefix| + i) <==> OccursAt(text, sep, i)
  {
    if i + |sep| <= |text| {
      assert (prefix + text)[|prefix| + i..|prefix| + i + |sep|] == text[i..i + |sep|];
    }
  }

  lemma OccursInFront(text: string, more: string, sep: string, i: nat)
    requires i + |sep| <= |text|
    ensures OccursAt(text + more, sep, i) <==> OccursAt(text, sep, i)
  {
    assert (text + more)[i..i + |sep|] == text[i..i + |sep|];
  }

  /** Searching behind a prefix is searching the rest. */
  lemma FindBehind(prefix: string, text: string, sep: string)
    ensures Find(prefix + text, sep, |prefix|) ==
            match Find(text, sep, 0) case None => None case Some(pos) => Some(|prefix| + pos)
  {
    hide Find, OccursAt;
    var whole, part := Find(prefix + text, sep, |prefix|), Find(text, sep, 0);
    if whole.Some? {
      OccursBehind(prefix, text, sep, whole.value - |prefix|);
    }
    if part.Some? {
      OccursBehind(prefix, text, sep, part.value);
    }
  }

  /** What follows the first occurrence does not change where it is. */
  lemma FindInFront(text: string, more: string, sep: string)
    requires Find(text, sep, 0).Some? && Find(text, sep, 0).value + |sep| <= |text|
    ensures Find(text + more, sep, 0) == Find(text, sep, 0)
  {
    hide Find, OccursAt;
    var whole, part := Find(text + more, sep, 0), Find(text, sep, 0);
    OccursInFront(text, more, sep, part.value);
    OccursInFront(text, more, sep, if whole.Some? && whole.value < part.value then whole.value else part.value);
  }

  function Dirs(prefixes: seq<string>): set<string> {
    set p | p in prefixes :: WithoutSlash(p)
  }

  /** The directories are those listed, a slash at the end of one being no part of its name. */
  lemma DirsMean(prefixes: seq<string>, dir: string)
    ensures dir in Dirs(prefixes) <==> dir + "/" in prefixes || (dir in prefixes && !EndsWith(dir, "/"))
  {
    if dir in Dirs(prefixes) {
      var p :| p in prefixes && WithoutSlash(p) == dir;
      assert EndsWith(p, "/") ==> p == dir + "/";
    }
    if dir + "/" in prefixes {
      assert WithoutSlash(dir + "/") == dir;
    }
  }

  method UpdatePrefixes(dst: set<string>, prefixes: seq<string>) returns (r: set<string>)
    ensures r == dst + Dirs(prefixes)
  {
    r := dst;
    var i := 0;
    while i < |prefixes|
      invariant 0 <= i <= |prefixes|
      invariant r == dst + Dirs(prefixes[..i])
    {
      r := r + {WithoutSlash(prefixes[i])};
      assert prefixes[..i + 1] == prefixes[..i] + [prefixes[i]];
      i := i + 1;
    }
    assert prefixes[..i] == prefixes;
  }

  function Entries(filter: ReportFilter): seq<ModuleInfo> {
    if filter.mods.Some? then filter.mods.value.entries else []
  }

  predicate Lists(filter: ReportFilter, entry: ModuleInfo, name: string) {
    filter.module_.Prefixes(entry.name) && ListedName(filter, entry.name) == name
  }

  /** Some entry below the module filter is listed as `name`. */
  ghost predicate IsListed(filter: ReportFilter, entries: seq<ModuleInfo>, name: string) {
    exists i | 0 <= i < |entries| :: Lists(filter, entries[i], name)
  }

  /** Some entry below the module filter is listed as `name` and has the directory `dir`. */
  ghost predicate OwnsDir(filter: ReportFilter, entries: seq<ModuleInfo>, name: string, dir: string) {
    exists i | 0 <= i < |entries| :: Lists(filter, entries[i], name) && dir in Dirs(entries[i].prefixes)
  }

  /** Some entry outside the module filter has the directory `dir`. */
  ghost predicate FiltersOut(filter: ReportFilter, entries: seq<ModuleInfo>, dir: string) {
    exists i | 0 <= i < |entries| :: !filter.module_.Prefixes(entries[i].name) && dir in Dirs(entries[i].prefixes)
  }

  ghost predicate Projected(
    filter: ReportFilter, entries: seq<ModuleInfo>, modules: ModuleDirs, filteredOut: set<string>)
  {
    && (forall name | name in modules :: forall dir :: dir in modules[name] <==> OwnsDir(filter, entries, name, dir))
    && (forall name :: name in modules <==> IsListed(filter, entries, name))
    && (forall dir :: dir in filteredOut <==> FiltersOut(filter, entries, dir))
  }

  method ModulesProjection(filter: ReportFilter) returns (modules: ModuleDirs, filteredOut: set<string>)
    ensures Projected(filter, Entries(filter), modules, filteredOut)
  {
    modules, filteredOut := map[], {};
    if filter.mods.None? {
      return;
    }
    var entries := filter.mods.value.entries;
    var i := 0;
    while i < |entries|
      invariant 0 <= i <= |entries|
      invariant Projected(filter, entries[..i], modules, filteredOut)
    {
      var entry := entries[i];
      ghost var before, was, out := entries[..i], modules, filteredOut;
      assert entries[..i + 1] == before + [entry];
      if !filter.module_.Prefixes(entry.name) {
        filteredOut := UpdatePrefixes(filteredOut, entry.prefixes);
      } else {
        var name := ListedName(filter, entry.name);
        var dirs := UpdatePrefixes(if name in modules then modules[name] else {}, entry.prefixes);
        modules := modules[name := dirs];
      }
      ProjectedGrows(filter, before, entry, was, out, modules, filteredOut);
      i := i + 1;
    }
    assert entries[..i] == entries;
  }

  lemma ProjectedGrows(filter: ReportFilter, entries: seq<ModuleInfo>, entry: ModuleInfo,
                       modules: ModuleDirs, filteredOut: set<string>, modules': ModuleDirs, filteredOut': set<string>)
    requires Projected(filter, entries, modules, filteredOut)
    requires var name := ListedName(filter, entry.name);
             var known := if name in modules then modules[name] else {};
             if filter.module_.Prefixes(entry.name) then
               modules' == modules[name := known + Dirs(entry.prefixes)] && filteredOut' == filteredOut
             else modules' == modules && filteredOut' == filteredOut + Dirs(entry.prefixes)
    ensures Projected(filter, entries + [entry], modules', filteredOut')
  {
    hide Dirs, IsListed, OwnsDir, FiltersOut;
    var all := entries + [entry];
    forall name
      ensures IsListed(filter, all, name) <==> IsListed(filter, entries, name) || Lists(filter, entry, name)
    {
      ListsSnoc(filter, entries, entry, name);
    }
    forall name, dir
      ensures OwnsDir(filter, all, name, dir)
              <==> OwnsDir(filter, entries, name, dir) || (Lists(filter, entry, name) && dir in Dirs(entry.prefixes))
      ensures OwnsDir(filter, entries, name, dir) ==> IsListed(filter, entries, name)
    {
      OwnsSnoc(filter, entries, entry, name, dir);
    }
    forall dir
      ensures FiltersOut(filter, all, dir)
              <==> FiltersOut(filter, entries, dir) || (!filter.module_.Prefixes(entry.name) && dir in Dirs(entry.prefixes))
    {
      FiltersSnoc(filter, entries, entry, dir);
    }
  }

  lemma ListsSnoc(filter: ReportFilter, entries: seq<ModuleInfo>, entry: ModuleInfo, name: string)
    ensures IsListed(filter, entries + [entry], name)
            <==> IsListed(filter, entries, name) || Lists(filter, entry, name)
  {
    hide Lists;
    var all := entries + [entry];
    assert all[|entries|] == entry && forall i | 0 <= i < |entries| :: all[i] == entries[i];
  }

  lemma OwnsSnoc(filter: ReportFilter, entries: seq<ModuleInfo>, entry: ModuleInfo, name: string, dir: string)
    ensures OwnsDir(filter, entries + [entry], name, dir)
            <==> OwnsDir(filter, entries, name, dir) || (Lists(filter, entry, name) && dir in Dirs(entry.prefixes))
    ensures OwnsDir(filter, entries, name, dir) ==> IsListed(filter, entries, name)
  {
    hide Lists, Dirs;
    var all := entries + [entry];
    assert all[|entries|] == entry && forall i | 0 <= i < |entries| :: all[i] == entries[i];
  }

  lemma FiltersSnoc(filter: ReportFilter, entries: seq<ModuleInfo>, entry: ModuleInfo, dir: string)
    ensures FiltersOut(filter, entries + [entry], dir)
            <==> FiltersOut(filter, entries, dir) || (!filter.module_.Prefixes(entry.name) && dir in Dirs(entry.prefixes))
  {
    hide Dirs;
    var all := entries + [entry];
    assert all[|entries|] == entry && forall i | 0 <= i < |entries| :: all[i] == entries[i];
  }

  // ---------------------------------------------------------------------------
  // Where a file goes

  datatype Verdict = Dropped | Unmatched | InModule(name: string)

  /** How much of a file's name a directory matches; 0 when it does not match. */
  function MatchLength(dir: string, filename: string): nat {
    var prefix := MakePrefixed(dir, "/");
    if prefix.Prefixes(filename) then |prefix.prefix| else 0
  }

  /** A directory matches itself and what is behind its slash, with its name and that slash; no other
      directory matches, so `lib` does not match `library`. */
  lemma MatchMeans(dir: string, filename: string)
    requires !EndsWith(dir, "/")
    ensures MatchLength(dir, filename) ==
            if dir != "" && (filename == dir || StartsWith(filename, dir + "/")) then |dir| + 1 else 0
    ensures dir != "" ==> MatchLength(dir + "/", filename) == MatchLength(dir, filename)
  {
    PrefixesMeans(dir, "/", filename);
    assert dir != "" ==> |MakePrefixed(dir, "/").prefix| == |dir| + 1;
  }

  /** No directory of any module matches more than `n` characters. */
  ghost predicate ModulesWithin(modules: ModuleDirs, filename: string, n: nat) {
    forall name, dir | name in modules && dir in modules[name] :: MatchLength(dir, filename) <= n
  }

  ghost predicate DirsWithin(dirs: set<string>, filename: string, n: nat) {
    forall dir | dir in dirs :: MatchLength(dir, filename) <= n
  }

  /** No module in front of `name`, in the order of names, has a directory that matches as much. */
  ghost predicate FirstToMatch(modules: ModuleDirs, filename: string, name: string, n: nat) {
    forall other, dir | other in modules && dir in modules[other] && Precedes(other, name) ::
      MatchLength(dir, filename) < n
  }

  /** Dropped: a filtered-out directory matches strictly more than every module's directory.
      In a module: one of its directories matches, none of any kind matches more, and it is the
      first by name of those that match as much.
      Unmatched: no directory matches at all. */
  ghost predicate Decides(filename: string, modules: ModuleDirs, filteredOut: set<string>, v: Verdict) {
    match v
    case Unmatched => ModulesWithin(modules, filename, 0) && DirsWithin(filteredOut, filename, 0)
    case Dropped =>
      exists dir | dir in filteredOut ::
        MatchLength(dir, filename) > 0 && ModulesWithin(modules, filename, MatchLength(dir, filename) - 1)
    case InModule(name) =>
      name in modules
      && exists dir | dir in modules[name] ::
           MatchLength(dir, filename) > 0 && Wins(modules, filteredOut, filename, name, MatchLength(dir, filename))
  }

  ghost predicate Wins(modules: ModuleDirs, filteredOut: set<string>, filename: string, name: string, n: nat) {
    ModulesWithin(modules, filename, n) && DirsWithin(filteredOut, filename, n) && FirstToMatch(modules, filename, name, n)
  }

  /** There is only one verdict. */
  lemma VerdictsExclude(filename: string, modules: ModuleDirs, filteredOut: set<string>, v: Verdict, w: Verdict)
    requires Decides(filename, modules, filteredOut, v) && Decides(filename, modules, filteredOut, w)
    ensures v == w
  {
    if v.Dropped? {
      var dir :| dir in filteredOut && MatchLength(dir, filename) > 0
        && ModulesWithin(modules, filename, MatchLength(dir, filename) - 1);
    }
    if w.Dropped? {
      var dir :| dir in filteredOut && MatchLength(dir, filename) > 0
        && ModulesWithin(modules, filename, MatchLength(dir, filename) - 1);
    }
    if v.InModule? && w.InModule? {
      FirstIsOne(filename, modules, filteredOut, v.name, w.name);
    }
  }

  lemma FirstIsOne(filename: string, modules: ModuleDirs, filteredOut: set<string>, a: string, b: string)
    requires Decides(filename, modules, filteredOut, InModule(a)) && Decides(filename, modules, filteredOut, InModule(b))
    ensures a == b
  {
    var x :| x in modules[a] && MatchLength(x, filename) > 0
      && Wins(modules, filteredOut, filename, a, MatchLength(x, filename));
    var y :| y in modules[b] && MatchLength(y, filename) > 0
      && Wins(modules, filteredOut, filename, b, MatchLength(y, filename));
    OneWinner(modules, filename, a, x, MatchLength(x, filename), b, y, MatchLength(y, filename));
  }

  lemma OneWinner(modules: ModuleDirs, filename: string, a: string, x: string, m: nat, b: string, y: string, n: nat)
    requires a in modules && x in modules[a] && m == MatchLength(x, filename)
    requires b in modules && y in modules[b] && n == MatchLength(y, filename)
    requires ModulesWithin(modules, filename, m) && FirstToMatch(modules, filename, a, m)
    requires ModulesWithin(modules, filename, n) && FirstToMatch(modules, filename, b, n)
    ensures a == b
  {
    PrecedesTotal(a, b);
  }

  /** The best match among the directories of the modules looked at so far: the names in front of
      those that are left. */
  ghost predicate Best(modules: ModuleDirs, left: set<string>, filename: string, name: string, n: nat) {
    && (forall other, dir | other in modules && other !in left && dir in modules[other] :: MatchLength(dir, filename) <= n)
    && (n > 0 ==> BestIs(modules, filename, name, n) && FirstToMatch(modules, filename, name, n))
  }

  ghost predicate BestIs(modules: ModuleDirs, filename: string, name: string, n: nat) {
    name in modules && exists dir | dir in modules[name] :: MatchLength(dir, filename) == n
  }

  /** The directories of one module, whose name comes behind all those looked at. */
  method MatchModule(filename: string, modules: ModuleDirs, name: string, ghost left: set<string>,
                     best: string, length: nat)
    returns (best': string, length': nat)
    requires name in left && left <= modules.Keys && Best(modules, left, filename, best, length)
    requires forall other | other in left :: !Precedes(other, name)
    ensures Best(modules, left - {name}, filename, best', length')
  {
    best', length' := best, length;
    var dirs := modules[name];
    while dirs != {}
      invariant dirs <= modules[name] && Best(modules, left, filename, best', length')
      invariant forall dir | dir in modules[name] && dir !in dirs :: MatchLength(dir, filename) <= length'
    {
      var dir :| dir in dirs;
      var prefix := MakePrefixed(dir, "/");
      if prefix.Prefixes(filename) && length' < |prefix.prefix| {
        length' := |prefix.prefix|;
        best' := name;
        assert MatchLength(dir, filename) == length';
      }
      dirs := dirs - {dir};
    }
  }

  method MatchModules(filename: string, modules: ModuleDirs) returns (best: string, length: nat)
    ensures Best(modules, {}, filename, best, length)
  {
    best, length := "", 0;
    var left := modules.Keys;
    while left != {}
      invariant left <= modules.Keys && Best(modules, left, filename, best, length)
    {
      LeastExists(left);
      var name :| IsLeast(name, left);
      best, length := MatchModule(filename, modules, name, left, best, length);
      left := left - {name};
    }
  }

  method Classify(filename: string, modules: ModuleDirs, filteredOut: set<string>) returns (v: Verdict)
    ensures Decides(filename, modules, filteredOut, v)
  {
    var moduleName, length := MatchModules(filename, modules);
    var isFiltered := false;
    ghost var best := length;
    var dirs := filteredOut;
    while dirs != {}
      invariant dirs <= filteredOut && best <= length
      invariant forall dir | dir in filteredOut && dir !in dirs :: MatchLength(dir, filename) <= length
      invariant !isFiltered ==> length == best
      invariant isFiltered ==> length > best && exists dir | dir in filteredOut :: MatchLength(dir, filename) == length
      invariant !isFiltered ==> Best(modules, {}, filename, moduleName, length)
    {
      var dir :| dir in dirs;
      var prefix := MakePrefixed(dir, "/");
      if prefix.Prefixes(filename) && length < |prefix.prefix| {
        length := |prefix.prefix|;
        moduleName := "";
        isFiltered := true;
        assert MatchLength(dir, filename) == length;
      }
      dirs := dirs - {dir};
    }

    if length == 0 {
      v := Unmatched;
    } else if isFiltered {
      v := Dropped;
    } else {
      v := InModule(moduleName);
    }
  }
}
