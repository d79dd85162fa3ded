/**
 Ranges of reports: `A..B` is everything reachable from B and not from A.
 */
module RevisionRange {
  import opened Ancestry

  /** The nearest id on the chain of `to` that is also on the chain of `from`; zero if there is none. */
  ghost predicate IsMeetingPoint(store: map<Oid, Object>, from: Oid, to: Oid, meet: Oid) {
    if meet == ZERO then
      forall n: nat :: !OnChain(store, Nth(store, to, n), from)
    else
      exists n: nat ::
        && Nth(store, to, n) == meet && OnChain(store, meet, from)
        && forall i: nat | i < n :: !OnChain(store, Nth(store, to, i), from)
  }

  /** From an id they share on, the two chains go on together; no chain visits an id twice. */
  lemma SharedTail(store: map<Oid, Object>, from: Oid, to: Oid, i: nat, n: nat, k: nat, j: nat)
    requires IsStore(store) && Acyclic(store)
    requires i < n && k <= j && Nth(store, to, i) == Nth(store, from, j) && Nth(store, to, n) == Nth(store, from, k)
    ensures Nth(store, to, n) == ZERO
  {
    var d, m := n - i, j + n - i;
    NthAdds(store, to, i, d, n);
    NthAdds(store, from, j, d, m);
    ChainIsDistinct(store, from, k, m);
  }

  /** The two chains meet at `a` and at no earlier common id. */
  lemma NothingEarlier(store: map<Oid, Object>, from: Oid, to: Oid, n: nat, k: nat, i: nat)
    requires IsStore(store) && Acyclic(store)
    requires i < n && Nth(store, to, n) == Nth(store, from, k) != ZERO
    requires Nth(store, to, i) !in Passed(store, from, k)
    ensures !OnChain(store, Nth(store, to, i), from)
  {
    var a := Nth(store, to, i);
    if OnChain(store, a, from) {
      var j: nat :| Nth(store, from, j) == a;
      if j < k {
        HavePassed(store, from, j, k);
      } else {
        SharedTail(store, from, to, i, n, k, j);
      }
    }
  }

  /** The upper chain at its step `n` and the lower one at its step `k` are at the same id, and
      before that nothing they passed is shared. */
  lemma ChainsMeet(store: map<Oid, Object>, from: Oid, to: Oid, n: nat, k: nat)
    requires IsStore(store) && Acyclic(store)
    requires Nth(store, to, n) == Nth(store, from, k) != ZERO
    requires Passed(store, to, n) !! Passed(store, from, k)
    ensures IsMeetingPoint(store, from, to, Nth(store, to, n))
  {
    forall i: nat | i < n
      ensures !OnChain(store, Nth(store, to, i), from)
    {
      if Nth(store, to, i) != ZERO {
        HavePassed(store, to, i, n);
        NothingEarlier(store, from, to, n, k, i);
      }
    }
  }

  /** Both chains ended without meeting. */
  lemma NeverMeet(store: map<Oid, Object>, from: Oid, to: Oid, n: nat)
    requires IsStore(store) && Nth(store, to, n) == ZERO && Nth(store, from, n) == ZERO
    requires Passed(store, to, n) !! Passed(store, from, n)
    ensures IsMeetingPoint(store, from, to, ZERO)
  {
    forall i: nat
      ensures !OnChain(store, Nth(store, to, i), from)
    {
      var a := Nth(store, to, i);
      if OnChain(store, a, from) {
        var j: nat :| Nth(store, from, j) == a;
        BeforeTheEnd(store, to, i, n);
        BeforeTheEnd(store, from, j, n);
        HavePassed(store, to, i, n);
        HavePassed(store, from, j, n);
      }
    }
  }

  lemma BeforeTheEnd(store: map<Oid, Object>, id: Oid, i: nat, n: nat)
    requires IsStore(store) && Nth(store, id, n) == ZERO && Nth(store, id, i) != ZERO
    ensures i < n
  {
    if n <= i {
      PastTheRoot(store, id, n, i);
    }
  }

  lemma InTheStore(store: map<Oid, Object>, to: Oid, from: Oid, n: nat)
    requires IsStore(store) && Acyclic(store) && (Nth(store, to, n) != ZERO || Nth(store, from, n) != ZERO)
    ensures n <= |store|
  {
    if n > |store| {
      ChainEnds(store, to, n);
      ChainEnds(store, from, n);
    }
  }

  /** The upper chain steps on an id the lower chain has passed. */
  lemma UpperMeets(store: map<Oid, Object>, from: Oid, to: Oid, n: nat)
    requires IsStore(store) && Acyclic(store)
    requires Passed(store, to, n) !! Passed(store, from, n) && Nth(store, to, n) in Passed(store, from, n)
    ensures IsMeetingPoint(store, from, to, Nth(store, to, n))
  {
    var k := WhenPassed(store, from, n, Nth(store, to, n));
    PassedGrows(store, from, k, n);
    ChainsMeet(store, from, to, n, k);
  }

  /** The lower chain steps on an id the upper chain has passed. */
  lemma LowerMeets(store: map<Oid, Object>, from: Oid, to: Oid, n: nat)
    requires IsStore(store) && Acyclic(store)
    requires Passed(store, to, n + 1) !! Passed(store, from, n) && Nth(store, from, n) in Passed(store, to, n + 1)
    ensures IsMeetingPoint(store, from, to, Nth(store, from, n))
  {
    var k := WhenPassed(store, to, n + 1, Nth(store, from, n));
    PassedGrows(store, to, k, n + 1);
    ChainsMeet(store, from, to, k, n);
  }

  /** Walks both chains in lockstep until one of them steps on an id the other has passed. */
  method MeetingPoint(store: map<Oid, Object>, from: Oid, to: Oid) returns (meet: Oid)
    requires IsStore(store) && Acyclic(store)
    ensures IsMeetingPoint(store, from, to, meet)
  {
    var allowed: set<Oid> := {};
    var unallowed: set<Oid> := {};
    var top, bottom := to, from;
    ghost var n := 0;
    while top != ZERO || bottom != ZERO
      invariant top == Nth(store, to, n) && bottom == Nth(store, from, n)
      invariant allowed == Passed(store, to, n) && unallowed == Passed(store, from, n)
      invariant allowed !! unallowed
      invariant n <= |store| + 1
      decreases |store| + 1 - n
    {
      InTheStore(store, to, from, n);
      if top != ZERO {
        if top in unallowed {
          UpperMeets(store, from, to, n);
          return top;
        }
        allowed := allowed + {top};
        top := Next(store, top);
      }
      if bottom != ZERO {
        if bottom in allowed {
          LowerMeets(store, from, to, n);
          return bottom;
        }
        unallowed := unallowed + {bottom};
        bottom := Next(store, bottom);
      }
      n := n + 1;
    }
    NeverMeet(store, from, to, n);
    meet := top;
  }
}
