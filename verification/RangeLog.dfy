/**
 Listing a range: the log walks from `to` towards `from`. Behind `LocateRange` it shows exactly the
 reports that `to` reaches and the original `from` does not.
 */
module RangeLog {
  import opened Wrappers
  import opened Ancestry
  import opened RevisionRange

  /** The objects that can be shown in a log. */
  predicate Presentable(store: map<Oid, Object>, id: Oid) {
    id in store && !store[id].Coverage?
  }

  predicate Listed(store: map<Oid, Object>, from: Oid, id: Oid) {
    id != ZERO && id != from && Presentable(store, id)
  }

  predicate Within(limit: Option<nat>, n: nat) {
    limit == None || n < limit.value
  }

  /** The chain of `to`, as far as it can be listed and the limit allows. */
  ghost predicate IsLog(store: map<Oid, Object>, from: Oid, to: Oid, limit: Option<nat>, log: seq<Oid>) {
    && (forall i | 0 <= i < |log| :: log[i] == Nth(store, to, i) && Listed(store, from, log[i]) && Within(limit, i))
    && !(Within(limit, |log|) && Listed(store, from, Nth(store, to, |log|)))
  }

  lemma ListedInStore(store: map<Oid, Object>, from: Oid, to: Oid, n: nat)
    requires IsStore(store) && Acyclic(store) && Listed(store, from, Nth(store, to, n))
    ensures n <= |store|
  {
    if n > |store| {
      ChainEnds(store, to, n);
    }
  }

  /** What the walk knows: the log so far, and the count that is left. */
  ghost predicate Walked(store: map<Oid, Object>, from: Oid, to: Oid, limit: Option<nat>, log: seq<Oid>,
                         maxCount: Option<nat>)
  {
    && maxCount.None? == limit.None?
    && (limit.Some? ==> |log| <= limit.value && maxCount.value == limit.value - |log|)
    && (forall i | 0 <= i < |log| :: log[i] == Nth(store, to, i) && Listed(store, from, log[i]) && Within(limit, i))
  }

  lemma WalkedOn(store: map<Oid, Object>, from: Oid, to: Oid, limit: Option<nat>, log: seq<Oid>, maxCount: Option<nat>)
    requires Walked(store, from, to, limit, log, maxCount) && (maxCount.Some? ==> maxCount.value > 0)
    requires Listed(store, from, Nth(store, to, |log|))
    ensures Walked(store, from, to, limit, log + [Nth(store, to, |log|)],
                   if maxCount.Some? then Some(maxCount.value - 1) else None)
  {
  }

  method Navigate(store: map<Oid, Object>, from: Oid, to: Oid, limit: Option<nat>) returns (log: seq<Oid>)
    requires IsStore(store) && Acyclic(store)
    ensures IsLog(store, from, to, limit, log)
  {
    var id := to;
    var maxCount := limit;
    log := [];
    while id != ZERO && id != from && (maxCount == None || maxCount.value != 0)
      invariant id == Nth(store, to, |log|)
      invariant Walked(store, from, to, limit, log, maxCount)
      invariant |log| <= |store| + 1
      decreases |store| + 1 - |log|
    {
      ghost var count := maxCount;
      if maxCount.Some? {
        maxCount := Some(maxCount.value - 1);
      }
      if !Presentable(store, id) {
        break;
      }
      WalkedOn(store, from, to, limit, log, count);
      ListedInStore(store, from, to, |log|);
      log := log + [id];
      id := Next(store, id);
    }
  }

  // ---------------------------------------------------------------------------
  // What a range shows

  /** In `a..b`: reached from `b`, and not from `a`. */
  ghost predicate InRange(store: map<Oid, Object>, a: Oid, b: Oid, x: Oid) {
    OnChain(store, x, b) && !OnChain(store, x, a)
  }

  ghost predicate AllPresentable(store: map<Oid, Object>, id: Oid) {
    forall n: nat | Nth(store, id, n) != ZERO :: Presentable(store, Nth(store, id, n))
  }

  /** `from` is what `LocateRange` leaves behind for the range `a..b`. */
  ghost predicate Located(store: map<Oid, Object>, a: Oid, b: Oid, from: Oid) {
    if a == ZERO || b == ZERO then from == a else IsMeetingPoint(store, a, b, from)
  }

  lemma NothingReachesZero(store: map<Oid, Object>, x: Oid)
    requires IsStore(store)
    ensures !OnChain(store, x, ZERO)
  {
    if OnChain(store, x, ZERO) {
      var n: nat :| Nth(store, ZERO, n) == x;
      ZeroStays(store, n);
    }
  }

  /** No listed id is reached from `a`: the walk stops at the first one that is. */
  lemma ListedIsInRange(store: map<Oid, Object>, a: Oid, b: Oid, from: Oid, n: nat)
    requires IsStore(store) && Located(store, a, b, from)
    requires forall i: nat | i <= n :: Nth(store, b, i) != ZERO && Nth(store, b, i) != from
    ensures InRange(store, a, b, Nth(store, b, n))
  {
    assert Nth(store, b, 0) == b;
    if a == ZERO {
      NothingReachesZero(store, Nth(store, b, n));
    } else if from != ZERO {
      var k: nat :| Nth(store, b, k) == from && forall i: nat | i < k :: !OnChain(store, Nth(store, b, i), a);
      assert k > n;
    }
  }

  /** What comes before an id of the range is in the range. */
  lemma RangeIsPrefix(store: map<Oid, Object>, a: Oid, b: Oid, i: nat, n: nat)
    requires IsStore(store) && i <= n && InRange(store, a, b, Nth(store, b, n))
    ensures InRange(store, a, b, Nth(store, b, i))
  {
    if Nth(store, b, i) == ZERO {
      PastTheRoot(store, b, i, n);
    }
    if OnChain(store, Nth(store, b, i), a) {
      NthAdds(store, b, i, n - i, n);
      OnChainGoesOn(store, a, Nth(store, b, i), n - i);
    }
  }

  /** The id the walk stops at is not in the range. */
  lemma StopIsOutside(store: map<Oid, Object>, a: Oid, b: Oid, from: Oid)
    requires IsStore(store) && Located(store, a, b, from)
    ensures !InRange(store, a, b, from)
  {
    if a == ZERO || b == ZERO {
      NothingReachesZero(store, a);
      NothingReachesZero(store, from);
      assert a != ZERO ==> Nth(store, a, 0) == a;
    }
  }

  lemma LogEntry(store: map<Oid, Object>, from: Oid, to: Oid, limit: Option<nat>, log: seq<Oid>, n: nat)
    requires IsLog(store, from, to, limit, log) && n < |log|
    ensures log[n] == Nth(store, to, n) && Listed(store, from, Nth(store, to, n)) && Within(limit, n)
  {
  }

  /** Up to place `n` everything is in the range and can be shown. */
  ghost predicate Showable(store: map<Oid, Object>, a: Oid, b: Oid, n: nat) {
    && InRange(store, a, b, Nth(store, b, n))
    && forall i: nat | i <= n :: Presentable(store, Nth(store, b, i))
  }

  lemma EntryIsShowable(store: map<Oid, Object>, a: Oid, b: Oid, from: Oid, limit: Option<nat>, log: seq<Oid>, n: nat)
    requires IsStore(store) && Located(store, a, b, from) && IsLog(store, from, b, limit, log) && n < |log|
    ensures Showable(store, a, b, n)
  {
    forall i: nat | i <= n
      ensures Listed(store, from, Nth(store, b, i))
    {
      LogEntry(store, from, b, limit, log, i);
    }
    ListedIsInRange(store, a, b, from, n);
  }

  lemma ShowableIsEntry(store: map<Oid, Object>, a: Oid, b: Oid, from: Oid, limit: Option<nat>, log: seq<Oid>, n: nat)
    requires IsStore(store) && Located(store, a, b, from) && IsLog(store, from, b, limit, log)
    requires Within(limit, n) && Showable(store, a, b, n)
    ensures n < |log|
  {
    if |log| <= n {
      RangeIsPrefix(store, a, b, |log|, n);
      StopIsOutside(store, a, b, from);
    }
  }

  /** The log of `a..b` is in parent order, and at its place `n` there is an entry exactly if all
      ids up to there are in the range and can be shown, and the limit is not used up. */
  lemma LogIsRange(store: map<Oid, Object>, a: Oid, b: Oid, from: Oid, limit: Option<nat>, log: seq<Oid>, n: nat)
    requires IsStore(store) && Located(store, a, b, from) && IsLog(store, from, b, limit, log)
    ensures n < |log| <==> Within(limit, n) && Showable(store, a, b, n)
    ensures n < |log| ==> log[n] == Nth(store, b, n)
  {
    if n < |log| {
      LogEntry(store, from, b, limit, log, n);
      EntryIsShowable(store, a, b, from, limit, log, n);
    } else if Within(limit, n) && Showable(store, a, b, n) {
      ShowableIsEntry(store, a, b, from, limit, log, n);
    }
  }

  /** `A..B` shows each ancestor-or-self of B that is not one of A, once, and nothing else. */
  lemma RangeMeaning(store: map<Oid, Object>, a: Oid, b: Oid, from: Oid, log: seq<Oid>)
    requires IsStore(store) && Acyclic(store) && Located(store, a, b, from) && AllPresentable(store, b)
    requires IsLog(store, from, b, None, log)
    ensures forall x :: x in log <==> InRange(store, a, b, x)
    ensures forall i, j | 0 <= i < j < |log| :: log[i] != log[j] && log[j] == Nth(store, log[i], j - i)
  {
    forall x
      ensures x in log <==> InRange(store, a, b, x)
    {
      if x in log {
        var i :| 0 <= i < |log| && log[i] == x;
        LogIsRange(store, a, b, from, None, log, i);
      }
      if InRange(store, a, b, x) {
        var n: nat :| Nth(store, b, n) == x;
        forall i: nat | i <= n
          ensures Presentable(store, Nth(store, b, i))
        {
          RangeIsPrefix(store, a, b, i, n);
        }
        LogIsRange(store, a, b, from, None, log, n);
        assert log[n] == x;
      }
    }
    forall i, j | 0 <= i < j < |log|
      ensures log[i] != log[j] && log[j] == Nth(store, log[i], j - i)
    {
      NthAdds(store, b, i, j - i, j);
      if log[i] == log[j] {
        ChainIsDistinct(store, b, i, j);
      }
    }
  }

  /** A limit cuts the log off, and changes nothing else. */
  lemma LimitIsPrefix(store: map<Oid, Object>, from: Oid, to: Oid, n: nat, all: seq<Oid>, log: seq<Oid>)
    requires IsLog(store, from, to, None, all) && IsLog(store, from, to, Some(n), log)
    ensures log == if n < |all| then all[..n] else all
  {
    forall i | 0 <= i < |log| && i < |all|
      ensures log[i] == all[i]
    {
      LogEntry(store, from, to, None, all, i);
      LogEntry(store, from, to, Some(n), log, i);
    }
    if |log| > 0 {
      LogEntry(store, from, to, Some(n), log, |log| - 1);
    }
    if |log| > |all| {
      LogEntry(store, from, to, Some(n), log, |all|);
    } else if |log| < |all| {
      LogEntry(store, from, to, None, all, |log|);
    }
  }
}
