/**
 The directory tree as the program keeps it: entries are grown, totalled, joined and renamed in
 place.  A `std::vector<dir_entry>` holds its entries by value, so the children of an entry are
 values, and an operation on a child updates that child where it is stored.  Every method is
 proved against the tree functions.
 */
module DirectoryTree {
  import opened CoverageStats
  import opened ProjectionTree
  import opened Propagation
  import opened Prefixes

  class DirEntry {
    var result: Entry
    var children: seq<Dir>

    function Tree(): Dir
      reads this
    {
      Dir(result, children)
    }

    constructor (dir: Dir)
      ensures Tree() == dir
    {
      result := dir.entry;
      children := dir.children;
    }

    /** The position of the child of this kind and name, made if it is missing. */
    method AddLevel(kind: EntryKind, display: string) returns (k: nat)
      modifies `children
      ensures (children, k) == Level(old(children), kind, display)
      ensures k < |children|
    {
      k := 0;
      while k < |children|
        invariant 0 <= k <= |children| && children == old(children)
        invariant FindEntry(children, kind, display) == k + FindEntry(children[k..], kind, display)
      {
        assert children[k..][1..] == children[k + 1..];
        if children[k].entry.kind == kind && children[k].entry.display == display {
          return;
        }
        k := k + 1;
      }
      children := children + [Dir(MakeEntry(kind, display), [])];
    }

    method AddFile(filename: string, file: FileStats)
      modifies `children
      ensures children == ProjectionTree.AddFile(old(children), filename, file)
      decreases |filename|
    {
      var split := SplitPath(filename);
      if split.None? {
        children := children + [Dir(MakeFile(filename, file), [])];
      } else {
        var (display, rest) := split.value;
        var k := AddLevel(Directory, display);
        var child := new DirEntry(children[k]);
        child.AddFile(rest, file);
        children := children[k := child.Tree()];
      }
    }

    method AddModule(name: string, sep: string, files: seq<FileStats>, prefixLength: nat)
      modifies `children
      ensures children == ProjectionTree.AddModule(old(children), name, sep, files, prefixLength)
      decreases |name|
    {
      if name == "" {
        var i := 0;
        while i < |files|
          invariant 0 <= i <= |files|
          invariant AddFiles(children, files[i..], prefixLength) == AddFiles(old(children), files, prefixLength)
        {
          assert files[i..][1..] == files[i + 1..];
          AddFile(Trimmed(files[i].filename, prefixLength), files[i]);
          i := i + 1;
        }
      } else {
        var (display, rest) := SplitModule(name, sep);
        var k := AddLevel(Module, display);
        var child := new DirEntry(children[k]);
        child.AddModule(rest, sep, files, prefixLength);
        children := children[k := child.Tree()];
      }
    }

    method Propagate(sep: string)
      modifies this
      ensures Tree() == Propagated(old(Tree()), sep)
      decreases children, 6
    {
      if result.kind != File {
        result := result.(stats := NO_STATS);
      }
      PropagateChildren(sep);
      TakeOverOnlyChild(sep);
    }

    /** The loop of `propagate`: totals every child and adds its total to this entry's. */
    method PropagateChildren(sep: string)
      modifies this
      ensures children == PropagatedForest(old(children), sep)
      ensures result == old(result).(stats := Extend(old(result).stats, Total(StatsOf(children))))
      decreases children, 5
    {
      ghost var before, after, own := children, PropagatedForest(children, sep), result;
      PropagateAll(sep, before, after, own);
      AllMoved(after, before, |before|);
      AccumulatedIsTotal(own.stats, after, |after|);
      assert after[..|after|] == after;
    }

    /** That loop, turn by turn. */
    method PropagateAll(sep: string, ghost before: seq<Dir>, ghost after: seq<Dir>, ghost own: Entry)
      requires children == before && result == own && after == PropagatedForest(before, sep)
      modifies this
      ensures children == Moved(after, before, |before|)
      ensures result == own.(stats := Accumulated(own.stats, after, |after|))
      decreases before, 4
    {
      assert Moved(after, before, 0) == before && Accumulated(own.stats, after, 0) == own.stats;
      hide Moved, Accumulated, Propagated, PropagatedForest;
      var i := 0;
      while i < |children|
        invariant 0 <= i <= |before| == |children| && children == Moved(after, before, i)
        invariant result == own.(stats := Accumulated(own.stats, after, i))
      {
        PropagateNext(i, sep, before, after, own);
        i := i + 1;
      }
    }

    /** One turn of that loop. */
    method PropagateNext(i: nat, sep: string, ghost before: seq<Dir>, ghost after: seq<Dir>, ghost own: Entry)
      requires i < |before| == |after| && children == Moved(after, before, i) && after == PropagatedForest(before, sep)
      requires result == own.(stats := Accumulated(own.stats, after, i))
      modifies this
      ensures children == Moved(after, before, i + 1)
      ensures result == own.(stats := Accumulated(own.stats, after, i + 1))
      decreases before[i].children, 8
    {
      NotMovedYet(after, before, i);
      PropagatedAt(before, i, sep);
      PropagateChild(i, sep);
    }

    /** One child: totals it and adds its total to this entry's. */
    method PropagateChild(i: nat, sep: string)
      requires i < |children|
      modifies this
      ensures children == old(children)[i := Propagated(old(children)[i], sep)]
      ensures result == old(result).(stats := Extend(old(result).stats, children[i].entry.stats))
      decreases children[i].children, 7
    {
      var child := new DirEntry(children[i]);
      child.Propagate(sep);
      children := children[i := child.Tree()];
      result := result.(stats := Extend(result.stats, child.result.stats));
    }

    /** The tail of `propagate`: joins this entry with its only child if both are of one kind. */
    method TakeOverOnlyChild(sep: string)
      modifies this
      ensures Tree() == Collapsed(old(result), old(children), sep)
    {
      if |children| != 1 || result.kind != children[0].entry.kind {
        return;
      }
      if result.kind == Module {
        if result.display != "" {
          result := result.(display := result.display + sep);
        }
      } else {
        result := result.(display := result.display + "/");
      }
      result := result.(display := result.display + children[0].entry.display);
      children := children[0].children;
    }

    /** Takes the place of single directories, whose names move to what they hold. */
    method SwapDirectoryWithChildren(fname: Prefixed) returns (expanded: bool)
      modifies `children
      ensures expanded == OnlyDirectory(old(children))
      ensures children == if expanded then Cleaned(CutOff(old(children), ""), fname) else old(children)
    {
      expanded := false;
      ghost var inner, prefix := children, "";
      while |children| == 1 && children[0].entry.kind == Directory
        invariant CutOff(inner, prefix) == CutOff(old(children), "")
        invariant if expanded then OnlyDirectory(old(children)) && children == Renamed(inner, prefix)
                  else children == old(children) == inner && prefix == ""
        decreases inner
      {
        assert !expanded ==> prefix + children[0].entry.display == children[0].entry.display;
        expanded := true;
        var name := children[0].entry.display + "/";
        children := children[0].children;
        inner, prefix := children, name;
        PutInFront(name);
      }
      if !expanded {
        return;
      }
      CleanNames(fname);
    }

    /** Puts the name of a directory that was cut off in front of those of its children. */
    method PutInFront(name: string)
      modifies `children
      ensures children == Renamed(old(children), name)
    {
      ghost var inner := children;
      var i := 0;
      while i < |children|
        invariant 0 <= i <= |children| == |inner|
        invariant forall j | 0 <= j < |children| :: children[j] == if j < i then Renamed(inner, name)[j] else inner[j]
      {
        var child := children[i];
        children := children[i := Dir(child.entry.(display := name + child.entry.display), child.children)];
        i := i + 1;
      }
    }

    method CleanNames(fname: Prefixed)
      modifies `children
      ensures children == Cleaned(old(children), fname)
    {
      ghost var cut := children;
      var i := 0;
      while i < |children|
        invariant 0 <= i <= |children| == |cut|
        invariant forall j | 0 <= j < |children| :: children[j] == if j < i then Cleaned(cut, fname)[j] else cut[j]
      {
        var child := children[i];
        children := children[i := Dir(child.entry.(display := fname.Clean(child.entry.display)), child.children)];
        i := i + 1;
      }
    }
  }

  /** Every name without the prefix of the file filter. */
  function Cleaned(children: seq<Dir>, fname: Prefixed): (r: seq<Dir>)
    ensures |r| == |children|
    ensures forall i | 0 <= i < |r| ::
              r[i] == Dir(children[i].entry.(display := fname.Clean(children[i].entry.display)), children[i].children)
  {
    if children == [] then []
    else
      [Dir(children[0].entry.(display := fname.Clean(children[0].entry.display)), children[0].children)]
      + Cleaned(children[1..], fname)
  }

  lemma {:induction false} CleanedKeepsStats(children: seq<Dir>, fname: Prefixed)
    ensures StatsOf(Cleaned(children, fname)) == StatsOf(children)
  {
    if children == [] {
    } else {
      CleanedKeepsStats(children[1..], fname);
      assert Cleaned(children, fname)[1..] == Cleaned(children[1..], fname);
    }
  }

  /** The children after `i` turns of a loop that replaces one after the other. */
  ghost function Moved(after: seq<Dir>, before: seq<Dir>, i: nat): (r: seq<Dir>)
    requires i <= |after| == |before|
    ensures |r| == |before|
  {
    if i == 0 then before else Moved(after, before, i - 1)[i - 1 := after[i - 1]]
  }

  lemma {:induction false} NotMovedYet(after: seq<Dir>, before: seq<Dir>, i: nat)
    requires i < |after| == |before|
    ensures Moved(after, before, i)[i] == before[i]
  {
    MovedAt(after, before, i, i);
  }

  lemma {:induction false} MovedAt(after: seq<Dir>, before: seq<Dir>, i: nat, k: nat)
    requires i <= |after| == |before| && k < |before|
    ensures Moved(after, before, i)[k] == if k < i then after[k] else before[k]
  {
    if i == 0 {
    } else {
      MovedAt(after, before, i - 1, k);
    }
  }

  lemma {:induction false} AllMoved(after: seq<Dir>, before: seq<Dir>, n: nat)
    requires n == |after| == |before|
    ensures Moved(after, before, n) == after
  {
    forall k | 0 <= k < n
      ensures Moved(after, before, n)[k] == after[k]
    {
      MovedAt(after, before, n, k);
    }
  }

  lemma {:induction false} PropagatedAt(children: seq<Dir>, i: nat, sep: string)
    requires i < |children|
    ensures PropagatedForest(children, sep)[i] == Propagated(children[i], sep)
  {
    if i == 0 {
    } else {
      PropagatedAt(children[1..], i - 1, sep);
    }
  }

  lemma {:induction false} StatsConcat(a: seq<Dir>, b: seq<Dir>)
    ensures StatsOf(a + b) == StatsOf(a) + StatsOf(b)
  {
    if a == [] {
      assert a + b == b;
    } else {
      assert (a + b)[1..] == a[1..] + b;
      StatsConcat(a[1..], b);
    }
  }

  /** The statistics after the first `n` children were added one by one. */
  ghost function Accumulated(own: EntryStats, children: seq<Dir>, n: nat): EntryStats
    requires n <= |children|
  {
    if n == 0 then own else Extend(Accumulated(own, children, n - 1), children[n - 1].entry.stats)
  }

  lemma OneTotal(stats: EntryStats)
    ensures Total([stats]) == stats
  {
    assert [stats][1..] == [];
    ExtendLaws(stats, NO_STATS, NO_STATS);
  }

  lemma StatsSnoc(a: seq<Dir>, dir: Dir)
    ensures Total(StatsOf(a + [dir])) == Extend(Total(StatsOf(a)), dir.entry.stats)
  {
    StatsConcat(a, [dir]);
    assert [dir][1..] == [];
    assert StatsOf([dir]) == [dir.entry.stats];
    TotalConcat(StatsOf(a), [dir.entry.stats]);
    OneTotal(dir.entry.stats);
  }

  lemma {:induction false} AccumulatedIsTotal(own: EntryStats, children: seq<Dir>, n: nat)
    requires n <= |children|
    ensures Accumulated(own, children, n) == Extend(own, Total(StatsOf(children[..n])))
  {
    if n == 0 {
      ExtendLaws(own, NO_STATS, NO_STATS);
    } else {
      AccumulatedIsTotal(own, children, n - 1);
      assert children[..n] == children[..n - 1] + [children[n - 1]];
      StatsSnoc(children[..n - 1], children[n - 1]);
      ExtendLaws(own, Total(StatsOf(children[..n - 1])), children[n - 1].entry.stats);
    }
  }
}
