/** A file filter that names exactly one file: the path becomes one chain of directories, which
    is joined, cut off and put back in front of the file's name. */
module Standalone {
  import opened Wrappers
  import opened Strings
  import opened CoverageStats
  import opened ProjectionTree
  import opened Propagation

  /** The single file at the end of its path. */
  function Chain(name: string, file: FileStats): seq<Dir> {
    match FindLast(name, '/')
    case None => [Dir(MakeFile(name, file), [])]
    case Some(pos) =>
      [Dir(MakeEntry(Directory, name[..pos]).(stats := file.stats), [Dir(MakeFile(name[pos + 1..], file), [])])]
  }

  lemma {:induction false} AddedFileIsChain(name: string, file: FileStats, sep: string)
    ensures PropagatedForest(AddFile([], name, file), sep) == Chain(name, file)
    decreases |name|
  {
    hide Propagated, PropagatedForest, Chain, AddFile, Collapsed;
    match SplitPath(name)
    case None =>
      LoneFile(name, file, sep);
    case Some((display, rest)) =>
      var dir := Dir(MakeEntry(Directory, display), AddFile([], rest, file));
      NestedFile(name, file);
      AddedFileIsChain(rest, file, sep);
      OneInChain(rest, file);
      OneDirectory(display, dir.children, Chain(rest, file), file.stats, sep);
      ChainGrows(name, display, rest, file, sep);
      OnePropagated(dir, sep);
  }

  lemma OneInChain(name: string, file: FileStats)
    ensures |Chain(name, file)| == 1 && Chain(name, file)[0].entry.stats == file.stats
  {
  }

  lemma OnePropagated(dir: Dir, sep: string)
    ensures PropagatedForest([dir], sep) == [Propagated(dir, sep)]
  {
    assert [dir][1..] == [];
  }

  lemma LoneFile(name: string, file: FileStats, sep: string)
    requires SplitPath(name).None?
    ensures PropagatedForest(AddFile([], name, file), sep) == Chain(name, file)
  {
    NoSlash(name);
    var leaf := Dir(MakeFile(name, file), []);
    assert [] + [leaf] == [leaf] && [leaf][1..] == [];
    ExtendLaws(file.stats, NO_STATS, NO_STATS);
    assert Propagated(leaf, sep) == leaf;
  }

  lemma NestedFile(name: string, file: FileStats)
    requires SplitPath(name).Some?
    ensures var (display, rest) := SplitPath(name).value;
            AddFile([], name, file) == [Dir(MakeEntry(Directory, display), AddFile([], rest, file))]
  {
    var empty := Dir(MakeEntry(Directory, SplitPath(name).value.0), []);
    var none: seq<Dir> := [];
    assert none + [empty] == [empty];
  }

  lemma ChainGrows(name: string, display: string, rest: string, file: FileStats, sep: string)
    requires name == display + "/" + rest
    ensures [Collapsed(MakeEntry(Directory, display).(stats := file.stats), Chain(rest, file), sep)] == Chain(name, file)
  {
    LastSlash(name, display, rest);
  }

  lemma OneDirectory(display: string, children: seq<Dir>, inner: seq<Dir>, stats: EntryStats, sep: string)
    requires PropagatedForest(children, sep) == inner && |inner| == 1 && inner[0].entry.stats == stats
    ensures var entry := MakeEntry(Directory, display);
            Propagated(Dir(entry, children), sep) == Collapsed(entry.(stats := stats), inner, sep)
  {
    assert inner[1..] == [];
    assert StatsOf(inner) == [stats];
    assert [stats][1..] == [];
    ExtendLaws(stats, NO_STATS, NO_STATS);
    assert Total([stats]) == stats;
    var entry := MakeEntry(Directory, display);
    assert entry.(stats := Extend(NO_STATS, Total(StatsOf(inner)))) == entry.(stats := stats);
  }

  lemma NoSlash(name: string)
    ensures SplitPath(name).None? ==> FindLast(name, '/').None?
  {
    forall i | 0 <= i < |name|
      ensures name[i] == '/' ==> OccursAt(name, "/", i)
    {
      assert name[i..i + 1] == [name[i]];
    }
  }

  lemma LastSlash(name: string, display: string, rest: string)
    requires name == display + "/" + rest
    ensures FindLast(name, '/')
            == match FindLast(rest, '/')
               case None => Some(|display|)
               case Some(pos) => Some(|display| + 1 + pos)
    ensures name[..|display|] == display && name[|display| + 1..] == rest
    ensures FindLast(rest, '/').Some? ==>
              var pos := FindLast(rest, '/').value;
              name[..|display| + 1 + pos] == display + "/" + rest[..pos]
              && name[|display| + 1 + pos + 1..] == rest[pos + 1..]
  {
    hide FindLast;
    assert name[|display|] == '/' && name[|display| + 1..] == rest;
    match FindLast(rest, '/')
    case None =>
      LastIs(name, '/', |display|);
    case Some(pos) =>
      var p := |display| + 1 + pos;
      assert name[p + 1..] == rest[pos + 1..] && name[p] == rest[pos];
      LastIs(name, '/', p);
  }

  lemma LastIs(s: string, c: char, p: nat)
    requires p < |s| && s[p] == c && c !in s[p + 1..]
    ensures FindLast(s, c) == Some(p)
  {
    assert c in s;
  }

  /** Cutting the chain leaves the file under its whole path again. */
  lemma ChainCutOff(name: string, file: FileStats)
    ensures CutOff(Chain(name, file), "")
            == [Dir(MakeFile(name, file), [])]
    ensures OnlyDirectory(Chain(name, file)) <==> '/' in name
  {
    var chain := Chain(name, file);
    match FindLast(name, '/')
    case None =>
      assert Renamed(chain, "")[0].entry.display == name;
    case Some(pos) =>
      var inner := chain[0].children;
      assert !OnlyDirectory(inner);
      assert "" + name[..pos] + "/" + name[pos + 1..] == name;
  }
}
