/** Sorting, as `std::stable_sort` does, and `std::unique` behind it. */
module Sorting {
  function Insert<T>(less: (T, T) -> bool, e: T, s: seq<T>): seq<T> {
    if s == [] || !less(s[0], e) then [e] + s else [s[0]] + Insert(less, e, s[1..])
  }

  function StableSort<T>(less: (T, T) -> bool, s: seq<T>): seq<T> {
    if s == [] then [] else Insert(less, s[0], StableSort(less, s[1..]))
  }

  function Unique<T>(equal: (T, T) -> bool, s: seq<T>): seq<T>
    decreases |s|
  {
    if |s| < 2 then s
    else if equal(s[0], s[1]) then Unique(equal, [s[0]] + s[2..])
    else [s[0]] + Unique(equal, s[1..])
  }

  function Filter<T>(p: T -> bool, s: seq<T>): seq<T> {
    if s == [] then [] else (if p(s[0]) then [s[0]] else []) + Filter(p, s[1..])
  }

  lemma {:induction false} FilterConcat<T>(p: T -> bool, a: seq<T>, b: seq<T>)
    ensures Filter(p, a + b) == Filter(p, a) + Filter(p, b)
  {
    if a == [] {
      assert a + b == b;
    } else {
      var head := if p(a[0]) then [a[0]] else [];
      assert (a + b)[0] == a[0] && (a + b)[1..] == a[1..] + b;
      FilterConcat(p, a[1..], b);
      assert Filter(p, a + b) == head + (Filter(p, a[1..]) + Filter(p, b));
      assert Filter(p, a) == head + Filter(p, a[1..]);
    }
  }

  lemma FilterFront<T>(p: T -> bool, e: T, s: seq<T>)
    ensures Filter(p, [e] + s) == if p(e) then [e] + Filter(p, s) else Filter(p, s)
  {
    assert ([e] + s)[1..] == s;
  }

  lemma FilterOne<T>(p: T -> bool, e: T)
    ensures Filter(p, [e]) == if p(e) then [e] else []
  {
    assert [e][1..] == [];
  }

  lemma {:induction false} FilterNone<T>(p: T -> bool, s: seq<T>)
    requires forall i | 0 <= i < |s| :: !p(s[i])
    ensures Filter(p, s) == []
  {
    if s == [] {
    } else {
      FilterNone(p, s[1..]);
    }
  }

  /** No element is less than one in front of it. */
  ghost predicate Ordered<T>(less: (T, T) -> bool, s: seq<T>) {
    forall i, j | 0 <= i < j < |s| :: !less(s[j], s[i])
  }

  lemma InFront<T>(e: T, s: seq<T>)
    ensures multiset([e] + s) == multiset(s) + multiset{e}
  {
  }

  lemma Swapped<T>(m: multiset<T>, a: T, b: T)
    ensures (m + multiset{a}) + multiset{b} == (m + multiset{b}) + multiset{a}
  {
  }

  lemma {:induction false} InsertKeeps<T>(less: (T, T) -> bool, e: T, s: seq<T>)
    ensures multiset(Insert(less, e, s)) == multiset(s) + multiset{e}
  {
    if s != [] && less(s[0], e) {
      var first, rest := s[0], s[1..];
      assert s == [first] + rest;
      InsertKeeps(less, e, rest);
      InFront(first, Insert(less, e, rest));
      InFront(first, rest);
      Swapped(multiset(rest), e, first);
    } else {
      InFront(e, s);
    }
  }

  lemma {:induction false} SortKeeps<T>(less: (T, T) -> bool, s: seq<T>)
    ensures multiset(StableSort(less, s)) == multiset(s)
  {
    if s == [] {
    } else {
      SortKeeps(less, s[1..]);
      InsertKeeps(less, s[0], StableSort(less, s[1..]));
      assert s == [s[0]] + s[1..];
    }
  }

  /** `less` is a strict weak order. */
  ghost predicate WeakOrder<T(!new)>(less: (T, T) -> bool) {
    && (forall a, b | less(a, b) :: !less(b, a))
    && (forall a, b, c | less(a, c) :: less(a, b) || less(b, c))
  }

  lemma {:induction false} InsertOrdered<T(!new)>(less: (T, T) -> bool, e: T, s: seq<T>)
    requires WeakOrder(less) && Ordered(less, s)
    ensures Ordered(less, Insert(less, e, s))
  {
    if s != [] && less(s[0], e) {
      InsertOrdered(less, e, s[1..]);
      InsertKeeps(less, e, s[1..]);
      var tail := Insert(less, e, s[1..]);
      forall j | 0 <= j < |tail|
        ensures !less(tail[j], s[0])
      {
        assert tail[j] in multiset(tail);
        assert tail[j] == e || tail[j] in s[1..];
      }
    } else if s != [] {
      var first := s[0];
      assert forall a | less(a, e) :: less(a, first) || less(first, e);
    }
  }

  lemma {:induction false} SortOrdered<T(!new)>(less: (T, T) -> bool, s: seq<T>)
    requires WeakOrder(less)
    ensures Ordered(less, StableSort(less, s))
  {
    if s == [] {
    } else {
      SortOrdered(less, s[1..]);
      InsertOrdered(less, s[0], StableSort(less, s[1..]));
    }
  }

  lemma {:induction false} InsertFilter<T>(less: (T, T) -> bool, p: T -> bool, e: T, s: seq<T>)
    requires p(e) ==> forall i | 0 <= i < |Filter(p, s)| :: !less(Filter(p, s)[i], e)
    ensures Filter(p, Insert(less, e, s)) == Filter(p, [e]) + Filter(p, s)
  {
    if s != [] && less(s[0], e) {
      var first, rest := s[0], s[1..];
      assert s == [first] + rest;
      FilterFront(p, first, rest);
      FilterFront(p, first, Insert(less, e, rest));
      FilterOne(p, e);
      assert !(p(e) && p(first)) by {
        assert p(first) ==> Filter(p, s)[0] == first;
      }
      InsertFilter(less, p, e, rest);
    } else {
      FilterConcat(p, [e], s);
    }
  }

  /** Stability: elements of one kind that are in order already stay as they are. */
  lemma {:induction false} SortFilter<T>(less: (T, T) -> bool, p: T -> bool, s: seq<T>)
    requires Ordered(less, Filter(p, s))
    ensures Filter(p, StableSort(less, s)) == Filter(p, s)
  {
    if s == [] {
    } else {
      var tail := Filter(p, s[1..]);
      assert Filter(p, s) == (if p(s[0]) then [s[0]] else []) + tail;
      assert Ordered(less, tail) by {
        var n := |Filter(p, s)| - |tail|;
        assert forall i | 0 <= i < |tail| :: tail[i] == Filter(p, s)[n + i];
      }
      SortFilter(less, p, s[1..]);
      if p(s[0]) {
        forall i | 0 <= i < |tail|
          ensures !less(tail[i], s[0])
        {
          assert Filter(p, s)[0] == s[0] && tail[i] == Filter(p, s)[i + 1];
        }
      }
      InsertFilter(less, p, s[0], StableSort(less, s[1..]));
      assert [s[0]][1..] == [];
    }
  }

  // ---------------------------------------------------------------------------
  // Sorting and dropping what is equal to the element in front of it

  /** The elements that are neither less nor greater than those of the class. */
  ghost predicate IsClass<T(!new)>(less: (T, T) -> bool, p: T -> bool) {
    forall a, b | p(a) :: p(b) <==> !less(a, b) && !less(b, a)
  }

  /** Equal elements are in the same place of the order. */
  ghost predicate TiesOnly<T(!new)>(less: (T, T) -> bool, equal: (T, T) -> bool) {
    forall a, b | equal(a, b) :: !less(a, b) && !less(b, a)
  }

  lemma {:induction false} FilterMember<T>(p: T -> bool, s: seq<T>, e: T)
    ensures e in Filter(p, s) <==> e in s && p(e)
  {
    if s == [] {
    } else {
      FilterMember(p, s[1..], e);
      assert s == [s[0]] + s[1..];
    }
  }

  /** In each class of a sorted sequence only neighbours are dropped, and they are neighbours in the
      class too. */
  lemma {:induction false} UniqueFilter<T(!new)>(less: (T, T) -> bool, equal: (T, T) -> bool, p: T -> bool, s: seq<T>)
    requires WeakOrder(less) && Ordered(less, s) && IsClass(less, p) && TiesOnly(less, equal)
    ensures Filter(p, Unique(equal, s)) == Unique(equal, Filter(p, s))
    decreases |s|
  {
    if |s| < 2 {
      assert |Filter(p, s)| < 2 by {
        if s != [] {
          FilterFront(p, s[0], []);
          assert s == [s[0]] + [];
        }
      }
    } else {
      var a, b, rest := s[0], s[1], s[2..];
      assert s == [a] + ([b] + rest) && s[1..] == [b] + rest;
      FilterFront(p, a, [b] + rest);
      FilterFront(p, b, rest);
      if equal(a, b) {
        DroppedSecond(less, a, b, rest);
        UniqueFilter(less, equal, p, [a] + rest);
        FilterFront(p, a, rest);
        TwoEqual(equal, a, b, Filter(p, rest));
      } else {
        TailOrdered(less, s);
        UniqueFilter(less, equal, p, s[1..]);
        FilterFront(p, a, Unique(equal, s[1..]));
        if p(a) {
          NotEqualBehind(less, equal, p, s);
          FirstStays(equal, a, Filter(p, s[1..]));
        }
      }
    }
  }

  lemma TailOrdered<T>(less: (T, T) -> bool, s: seq<T>)
    requires Ordered(less, s) && s != []
    ensures Ordered(less, s[1..])
  {
    assert forall i | 0 <= i < |s| - 1 :: s[1..][i] == s[i + 1];
  }

  lemma DroppedSecond<T>(less: (T, T) -> bool, a: T, b: T, rest: seq<T>)
    requires Ordered(less, [a] + ([b] + rest))
    ensures Ordered(less, [a] + rest)
  {
    var s, t := [a] + ([b] + rest), [a] + rest;
    assert t[0] == s[0] && forall i | 0 < i < |t| :: t[i] == s[i + 1];
  }

  lemma TwoEqual<T>(equal: (T, T) -> bool, a: T, b: T, rest: seq<T>)
    requires equal(a, b)
    ensures Unique(equal, [a] + ([b] + rest)) == Unique(equal, [a] + rest)
  {
    var s := [a] + ([b] + rest);
    assert s[2..] == rest;
  }

  lemma FirstStays<T>(equal: (T, T) -> bool, a: T, rest: seq<T>)
    requires rest == [] || !equal(a, rest[0])
    ensures Unique(equal, [a] + rest) == [a] + Unique(equal, rest)
  {
    assert ([a] + rest)[1..] == rest;
  }

  /** Behind the last neighbour of its class there is none of it. */
  lemma NotEqualBehind<T(!new)>(less: (T, T) -> bool, equal: (T, T) -> bool, p: T -> bool, s: seq<T>)
    requires |s| >= 2 && WeakOrder(less) && Ordered(less, s) && IsClass(less, p) && p(s[0]) && !equal(s[0], s[1])
    ensures Filter(p, s[1..]) == [] || !equal(s[0], Filter(p, s[1..])[0])
  {
    var rest := s[1..];
    assert rest == [s[1]] + s[2..];
    FilterFront(p, s[1], s[2..]);
    if !p(s[1]) {
      forall i | 0 <= i < |rest|
        ensures !p(rest[i])
      {
        assert rest[i] == s[i + 1] && !less(s[1], s[0]);
        if i > 0 {
          assert !less(s[i + 1], s[1]);
        }
      }
      FilterNone(p, rest);
    }
  }

  /** What a class keeps: its elements in their own order, without those equal to the one in front. */
  lemma SortUniqueClass<T(!new)>(less: (T, T) -> bool, equal: (T, T) -> bool, p: T -> bool, raw: seq<T>)
    requires WeakOrder(less) && IsClass(less, p) && TiesOnly(less, equal)
    ensures Filter(p, Unique(equal, StableSort(less, raw))) == Unique(equal, Filter(p, raw))
  {
    var own := Filter(p, raw);
    forall i, j | 0 <= i < j < |own|
      ensures !less(own[j], own[i])
    {
      FilterMember(p, raw, own[i]);
      FilterMember(p, raw, own[j]);
    }
    SortFilter(less, p, raw);
    SortOrdered(less, raw);
    UniqueFilter(less, equal, p, StableSort(less, raw));
  }

  lemma {:induction false} UniqueOrdered<T>(less: (T, T) -> bool, equal: (T, T) -> bool, s: seq<T>)
    requires Ordered(less, s)
    ensures Ordered(less, Unique(equal, s)) && forall e | e in Unique(equal, s) :: e in s
    decreases |s|
  {
    if |s| >= 2 {
      var a, b, rest := s[0], s[1], s[2..];
      assert s == [a] + ([b] + rest) && s[1..] == [b] + rest;
      if equal(a, b) {
        DroppedSecond(less, a, b, rest);
        UniqueOrdered(less, equal, [a] + rest);
      } else {
        var tail := Unique(equal, s[1..]);
        TailOrdered(less, s);
        UniqueOrdered(less, equal, s[1..]);
        forall j | 0 <= j < |tail|
          ensures !less(tail[j], a)
        {
          assert tail[j] in tail && tail[j] in s[1..];
          var k :| 0 <= k < |s[1..]| && s[1..][k] == tail[j];
          assert s[k + 1] == tail[j];
        }
      }
    }
  }

  lemma {:induction false} FilterTwo<T>(p: T -> bool, s: seq<T>, i: nat, j: nat)
    requires i < j < |s| && p(s[i]) && p(s[j])
    ensures |Filter(p, s)| >= 2
  {
    if i == 0 {
      assert s[1..][j - 1] == s[j];
      FilterMember(p, s[1..], s[j]);
    } else {
      FilterTwo(p, s[1..], i - 1, j - 1);
    }
  }

  lemma {:induction false} FilterCount<T>(p: T -> bool, s: seq<T>, e: T)
    ensures multiset(Filter(p, s))[e] == if p(e) then multiset(s)[e] else 0
  {
    if s == [] {
    } else {
      FilterCount(p, s[1..], e);
      assert s == [s[0]] + s[1..];
      InFront(s[0], s[1..]);
      InFront(s[0], Filter(p, s[1..]));
      FilterFront(p, s[0], s[1..]);
    }
  }

  /** No element is there twice. */
  ghost predicate NoDoubles<T(!new)>(s: seq<T>) {
    forall i, j | 0 <= i < j < |s| :: s[i] != s[j]
  }

  lemma {:induction false} NoDoublesCount<T(!new)>(s: seq<T>)
    ensures NoDoubles(s) <==> forall e | e in s :: multiset(s)[e] == 1
    decreases |s|
  {
    if s == [] {
    } else {
      var first, rest := s[0], s[1..];
      assert s == [first] + rest;
      InFront(first, rest);
      NoDoublesCount(rest);
      assert forall e :: multiset(s)[e] == multiset(rest)[e] + if e == first then 1 else 0;
      if NoDoubles(s) {
        assert NoDoubles(rest) by {
          assert forall i | 0 <= i < |rest| :: rest[i] == s[i + 1];
        }
        assert first !in rest by {
          assert forall i | 0 <= i < |rest| :: rest[i] == s[i + 1];
        }
      }
      if forall e | e in s :: multiset(s)[e] == 1 {
        assert multiset(s)[first] == 1 && first !in rest;
        assert forall e | e in rest :: e in s;
        assert NoDoubles(rest);
        forall i, j | 0 <= i < j < |s|
          ensures s[i] != s[j]
        {
          assert s[j] == rest[j - 1] && (i > 0 ==> s[i] == rest[i - 1]);
        }
      }
    }
  }
}
