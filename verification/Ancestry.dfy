/**
 Reports name their parent by id; following parents from an id gives its chain.
 */
module Ancestry {
  /** Object ids; the zero id stands for "no object". */
  type Oid = nat

  const ZERO: Oid := 0

  datatype Object =
    | Report(parent: Oid)
    | Build
    | Files
    | Coverage

  /** The objects that can be loaded. No object has the zero id. */
  predicate IsStore(store: map<Oid, Object>) {
    ZERO !in store
  }

  predicate IsReport(store: map<Oid, Object>, id: Oid) {
    id in store && store[id].Report?
  }

  /** The next id behind `id`: the parent of a report, and zero for everything else. */
  function Next(store: map<Oid, Object>, id: Oid): Oid {
    if IsReport(store, id) then store[id].parent else ZERO
  }

  /** The ancestor at distance `n`; zero past the root. */
  function Nth(store: map<Oid, Object>, id: Oid, n: nat): Oid
    decreases n
  {
    if n == 0 then id else Next(store, Nth(store, id, n - 1))
  }

  /** `a` is `id` or an ancestor of it. */
  ghost predicate OnChain(store: map<Oid, Object>, a: Oid, id: Oid) {
    a != ZERO && exists n: nat :: Nth(store, id, n) == a
  }

  /** Following parents from `id` leads back to it after `n` steps. */
  predicate Returns(store: map<Oid, Object>, id: Oid, n: nat) {
    id != ZERO && n > 0 && Nth(store, id, n) == id
  }

  /** No report is its own ancestor. */
  ghost predicate Acyclic(store: map<Oid, Object>) {
    forall id: Oid, n: nat :: !Returns(store, id, n)
  }

  lemma {:induction false} NthAdds(store: map<Oid, Object>, id: Oid, m: nat, d: nat, n: nat)
    requires n == m + d
    ensures Nth(store, Nth(store, id, m), d) == Nth(store, id, n)
    decreases d
  {
    if d == 0 {
    } else {
      NthAdds(store, id, m, d - 1, n - 1);
    }
  }

  lemma {:induction false} ZeroStays(store: map<Oid, Object>, n: nat)
    requires IsStore(store)
    ensures Nth(store, ZERO, n) == ZERO
  {
    if n == 0 {
    } else {
      ZeroStays(store, n - 1);
    }
  }

  lemma PastTheRoot(store: map<Oid, Object>, id: Oid, m: nat, n: nat)
    requires IsStore(store) && m <= n && Nth(store, id, m) == ZERO
    ensures Nth(store, id, n) == ZERO
  {
    NthAdds(store, id, m, n - m, n);
    ZeroStays(store, n - m);
  }

  /** An id comes up only once on a chain. */
  lemma ChainIsDistinct(store: map<Oid, Object>, id: Oid, m: nat, n: nat)
    requires IsStore(store) && Acyclic(store) && m < n && Nth(store, id, m) == Nth(store, id, n)
    ensures Nth(store, id, m) == ZERO
  {
    NthAdds(store, id, m, n - m, n);
    assert !Returns(store, Nth(store, id, m), n - m);
  }

  lemma OnChainGoesOn(store: map<Oid, Object>, id: Oid, a: Oid, n: nat)
    requires OnChain(store, a, id) && Nth(store, a, n) != ZERO
    ensures OnChain(store, Nth(store, a, n), id)
  {
    var m: nat :| Nth(store, id, m) == a;
    NthAdds(store, id, m, n, m + n);
  }

  // ---------------------------------------------------------------------------
  // Every chain ends

  /** The ids that the first `n` steps along a chain have passed. */
  function Passed(store: map<Oid, Object>, id: Oid, n: nat): set<Oid>
    decreases n
  {
    if n == 0 then {}
    else Passed(store, id, n - 1) + if Nth(store, id, n - 1) == ZERO then {} else {Nth(store, id, n - 1)}
  }

  lemma {:induction false} HavePassed(store: map<Oid, Object>, id: Oid, i: nat, n: nat)
    requires i < n && Nth(store, id, i) != ZERO
    ensures Nth(store, id, i) in Passed(store, id, n)
    decreases n
  {
    if i < n - 1 {
      HavePassed(store, id, i, n - 1);
    }
  }

  lemma {:induction false} WhenPassed(store: map<Oid, Object>, id: Oid, n: nat, a: Oid) returns (i: nat)
    requires a in Passed(store, id, n)
    ensures i < n && Nth(store, id, i) == a != ZERO
    decreases n
  {
    if Nth(store, id, n - 1) == a && a != ZERO {
      i := n - 1;
    } else {
      i := WhenPassed(store, id, n - 1, a);
    }
  }

  lemma {:induction false} PassedGrows(store: map<Oid, Object>, id: Oid, m: nat, n: nat)
    requires m <= n
    ensures Passed(store, id, m) <= Passed(store, id, n)
    decreases n
  {
    if m < n {
      PassedGrows(store, id, m, n - 1);
    }
  }

  lemma {:induction false} PassedCounts(store: map<Oid, Object>, id: Oid, n: nat)
    requires IsStore(store) && Acyclic(store) && Nth(store, id, n) != ZERO
    ensures |Passed(store, id, n)| == n && Passed(store, id, n) <= store.Keys
    decreases n
  {
    if n == 0 {
    } else {
      PassedCounts(store, id, n - 1);
      var last := Nth(store, id, n - 1);
      if last in Passed(store, id, n - 1) {
        var i := WhenPassed(store, id, n - 1, last);
        ChainIsDistinct(store, id, i, n - 1);
      }
    }
  }

  lemma SubsetSize<T>(a: set<T>, b: set<T>)
    requires a <= b
    ensures |a| <= |b|
  {
    assert b == a + (b - a);
  }

  /** A chain is at most one longer than the number of objects: only its last id may be missing. */
  lemma ChainEnds(store: map<Oid, Object>, id: Oid, n: nat)
    requires IsStore(store) && Acyclic(store) && n > |store|
    ensures Nth(store, id, n) == ZERO
  {
    if Nth(store, id, n) != ZERO {
      PassedCounts(store, id, n);
      SubsetSize(Passed(store, id, n), store.Keys);
    }
  }
}
