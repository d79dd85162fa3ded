/** Facts about sequences that several models need. */
module Sequences {

  function Map<S, T>(f: S -> T, s: seq<S>): seq<T> {
    if s == [] then [] else [f(s[0])] + Map(f, s[1..])
  }

  lemma Associative<S>(a: seq<S>, b: seq<S>, c: seq<S>)
    ensures a + (b + c) == (a + b) + c
  {
  }

  lemma Reassociate<S>(a: seq<S>, x: S, b: seq<S>)
    ensures a + ([x] + b) == (a + [x]) + b
  {
  }

  lemma {:induction false} MapConcat<S, T>(f: S -> T, a: seq<S>, b: seq<S>)
    ensures Map(f, a + b) == Map(f, a) + Map(f, b)
  {
    if a == [] {
      assert a + b == b;
    } else {
      assert (a + b)[1..] == a[1..] + b;
      MapConcat(f, a[1..], b);
    }
  }

  /** A sequence without its element at `k`. */
  function Without<S>(s: seq<S>, k: nat): seq<S>
    requires k < |s|
  {
    s[..k] + s[k + 1..]
  }

  /** Around its element at `k`. */
  lemma Around<S>(s: seq<S>, k: nat)
    requires k < |s|
    ensures s == s[..k] + ([s[k]] + s[k + 1..])
  {
  }

  lemma TakenOut<S>(s: seq<S>, k: nat)
    requires k < |s|
    ensures multiset(s) == multiset(Without(s, k)) + multiset{s[k]}
  {
    Around(s, k);
    Inserted(s[..k], s[k], s[k + 1..]);
  }

  lemma MapAround<S, T>(f: S -> T, a: seq<S>, x: S, b: seq<S>)
    ensures Map(f, a + ([x] + b)) == Map(f, a) + ([f(x)] + Map(f, b))
  {
    MapConcat(f, a, [x] + b);
    assert ([x] + b)[1..] == b;
  }

  lemma MapTakenOut<S, T>(f: S -> T, s: seq<S>, k: nat)
    requires k < |s|
    ensures multiset(Map(f, s)) == multiset(Map(f, Without(s, k))) + multiset{f(s[k])}
  {
    Around(s, k);
    MapAround(f, s[..k], s[k], s[k + 1..]);
    MapConcat(f, s[..k], s[k + 1..]);
    Inserted(Map(f, s[..k]), f(s[k]), Map(f, s[k + 1..]));
  }

  /** What is between two positions, and behind the second. */
  lemma Suffixes<S>(s: seq<S>, i: nat, j: nat)
    requires i <= j <= |s|
    ensures s[i..][..j - i] == s[i..j] && s[i..][j - i..] == s[j..] && s[..i] + s[i..j] == s[..j]
  {
  }

  lemma Inserted<T>(a: seq<T>, x: T, b: seq<T>)
    ensures multiset(a + ([x] + b)) == multiset(a + b) + multiset{x}
  {
  }

  lemma {:induction false} MapPermuted<S, T>(f: S -> T, a: seq<S>, b: seq<S>)
    requires multiset(a) == multiset(b)
    ensures multiset(Map(f, a)) == multiset(Map(f, b))
    decreases a
  {
    if a == [] {
      assert |multiset(b)| == |b|;
    } else {
      var k := Position(a[0], a, b);
      TakenOut(a, 0);
      TakenOut(b, k);
      Cancel(multiset(Without(a, 0)), multiset(Without(b, k)), a[0]);
      MapPermuted(f, Without(a, 0), Without(b, k));
      MapTakenOut(f, a, 0);
      MapTakenOut(f, b, k);
    }
  }

  lemma Cancel<S>(a: multiset<S>, b: multiset<S>, x: S)
    requires a + multiset{x} == b + multiset{x}
    ensures a == b
  {
    assert a == (a + multiset{x}) - multiset{x};
    assert b == (b + multiset{x}) - multiset{x};
  }

  lemma Position<S>(x: S, a: seq<S>, b: seq<S>) returns (k: nat)
    requires multiset(a) == multiset(b) && x in a
    ensures k < |b| && b[k] == x
  {
    assert x in multiset(b);
    k :| 0 <= k < |b| && b[k] == x;
  }
}
