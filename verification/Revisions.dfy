/**
 Ranges as a user writes them: `A..B`, with HEAD for an end that is left out.
 */
module Revisions {
  import opened Wrappers
  import opened Strings
  import opened Ancestry
  import opened RevisionNames
  import opened RevisionRange
  import opened RangeLog

  /** One end of a range; it has to be a report, or nothing. */
  function End(repo: Repository, rev: string, head: Oid): Parsed {
    if rev == "" then Parsed(None, head)
    else
      var end := Meaning(repo, rev, ZERO);
      if end.error == None && end.oid != ZERO && !IsReport(repo.store, end.oid) then end.(error := Some(WrongObjectType))
      else end
  }

  datatype Ends = Ends(error: Option<Error>, from: Oid, to: Oid)

  /** The two ends of a range whose dots are at `dots`. */
  function EndsAt(repo: Repository, range: string, dots: nat): Ends
    requires OccursAt(range, "..", dots)
  {
    var fromRev, toRev := range[..dots], range[dots + 2..];
    if (fromRev == "" && toRev == "") || (toRev != "" && toRev[0] == '.') then Ends(Some(InvalidSpec), ZERO, ZERO)
    else
      var head := if fromRev == "" || toRev == "" then Meaning(repo, "HEAD", ZERO) else Parsed(None, ZERO);
      if head.error != None then Ends(head.error, ZERO, ZERO)
      else
        var from := End(repo, fromRev, head.oid);
        if from.error != None then Ends(from.error, from.oid, ZERO)
        else
          var to := End(repo, toRev, head.oid);
          if to.error != None then Ends(to.error, ZERO, to.oid) else Ends(None, from.oid, to.oid)
  }

  /** What stands at one end of a range, HEAD if nothing does. */
  function Tip(repo: Repository, rev: string): Oid {
    Meaning(repo, if rev == "" then "HEAD" else rev, ZERO).oid
  }

  /** Why an end that is written out cannot be used. */
  function EndError(repo: Repository, rev: string): Option<Error> {
    var end := Meaning(repo, rev, ZERO);
    if end.error == None && end.oid != ZERO && !IsReport(repo.store, end.oid) then Some(WrongObjectType) else end.error
  }

  /** The range `a..b`, where the first dots are those behind `a`. */
  predicate IsRange(range: string, a: string, b: string) {
    range == a + ".." + b && Find(a + ".", "..", 0).None?
  }

  lemma DotsBehind(range: string, a: string, b: string)
    requires IsRange(range, a, b)
    ensures Find(range, "..", 0) == Some(|a|) && range[..|a|] == a && range[|a| + 2..] == b
  {
    assert OccursAt(range, "..", |a|);
    forall i | 0 <= i < |a|
      ensures !OccursAt(range, "..", i)
    {
      assert !OccursAt(a + ".", "..", i);
      assert range[i..i + 2] == (a + ".")[i..i + 2];
    }
  }

  /** What the two ends of `a..b` are: `a` is where the range starts and `b` where it ends, HEAD stands
      for the one that is left out, and the first error counts: the pattern's, that of HEAD if it
      is needed, that of `a`, that of `b`. */
  lemma RangeReads(repo: Repository, range: string, a: string, b: string)
    requires IsRange(range, a, b)
    ensures EndsAt(repo, range, |a|) ==
            if (a == "" && b == "") || (b != "" && b[0] == '.') then Ends(Some(InvalidSpec), ZERO, ZERO)
            else if (a == "" || b == "") && Meaning(repo, "HEAD", ZERO).error != None then
              Ends(Meaning(repo, "HEAD", ZERO).error, ZERO, ZERO)
            else if a != "" && EndError(repo, a) != None then Ends(EndError(repo, a), Tip(repo, a), ZERO)
            else if b != "" && EndError(repo, b) != None then Ends(EndError(repo, b), ZERO, Tip(repo, b))
            else Ends(None, Tip(repo, a), Tip(repo, b))
  {
    DotsBehind(range, a, b);
  }

  class Revs {
    var from: Oid
    var to: Oid
    var single: bool

    constructor ()
      ensures from == ZERO && to == ZERO && !single
    {
      from, to, single := ZERO, ZERO, false;
    }

    /** Moves `from` to where the two chains meet. */
    method LocateRange(store: map<Oid, Object>)
      requires IsStore(store) && Acyclic(store)
      modifies this`from
      ensures Located(store, old(from), to, from)
    {
      if from == ZERO || to == ZERO {
        return;
      }
      from := MeetingPoint(store, from, to);
    }

    method Parse(repo: Repository, range: string) returns (error: Option<Error>)
      requires IsStore(repo.store) && Acyclic(repo.store)
      modifies this
      ensures single == Find(range, "..", 0).None?
      ensures single ==> from == ZERO && Parsed(error, to) == Meaning(repo, range, ZERO)
      ensures !single ==>
                var ends := EndsAt(repo, range, Find(range, "..", 0).value);
                && error == ends.error && to == ends.to
                && if error == None then Located(repo.store, ends.from, to, from) else from == ends.from
      ensures forall a, b | IsRange(range, a, b) ::
                !single && (error == None ==> to == Tip(repo, b) && Located(repo.store, Tip(repo, a), to, from))
    {
      forall a, b | IsRange(range, a, b)
        ensures Find(range, "..", 0) == Some(|a|)
        ensures var ends := EndsAt(repo, range, |a|);
                ends.error == None ==> ends.from == Tip(repo, a) && ends.to == Tip(repo, b)
      {
        DotsBehind(range, a, b);
        RangeReads(repo, range, a, b);
      }
      hide IsRange;
      from, to, single := ZERO, ZERO, false;
      var pos := Find(range, "..", 0);
      if pos == None {
        single := true;
        error, to := ParseSingle(repo, range, to);
        return;
      }
      var fromRev, toRev := range[..pos.value], range[pos.value + 2..];
      if fromRev == "" && toRev == "" {
        return Some(InvalidSpec);
      }
      if toRev != "" && toRev[0] == '.' {
        return Some(InvalidSpec);
      }
      var head := ZERO;
      if fromRev == "" || toRev == "" {
        error, head := ParseSingle(repo, "HEAD", ZERO);
        if error != None {
          return;
        }
      }
      if fromRev == "" {
        from := head;
      } else {
        error, from := ParseEnd(repo, fromRev);
        if error != None {
          return;
        }
      }
      if toRev == "" {
        to := head;
      } else {
        error, to := ParseEnd(repo, toRev);
        if error != None {
          from := ZERO;
          return;
        }
      }
      LocateRange(repo.store);
      error := None;
    }
  }

  method ParseEnd(repo: Repository, rev: string) returns (error: Option<Error>, out: Oid)
    requires IsStore(repo.store) && rev != ""
    ensures forall head :: Parsed(error, out) == End(repo, rev, head)
  {
    error, out := ParseSingle(repo, rev, ZERO);
    if error == None && out != ZERO && !IsReport(repo.store, out) {
      error := Some(WrongObjectType);
    }
  }

  /** The log of a range: in parent order, everything that can be shown of what the end reaches and
      the start does not. */
  method Log(repo: Repository, range: string, limit: Option<nat>) returns (error: Option<Error>, log: seq<Oid>)
    requires IsStore(repo.store) && Acyclic(repo.store)
    ensures error != None ==> log == []
    ensures var pos := Find(range, "..", 0);
            var ends := if pos == None then Single(Meaning(repo, range, ZERO)) else EndsAt(repo, range, pos.value);
            && error == ends.error
            && (error == None ==> forall n: nat ::
                  && (n < |log| <==> Within(limit, n) && Showable(repo.store, ends.from, ends.to, n))
                  && (n < |log| ==> log[n] == Nth(repo.store, ends.to, n)))
    ensures forall a, b | IsRange(range, a, b) && error == None ::
              Shows(repo.store, Tip(repo, a), Tip(repo, b), limit, log)
  {
    var revs := new Revs();
    error := revs.Parse(repo, range);
    if error != None {
      return error, [];
    }
    log := Navigate(repo.store, revs.from, revs.to, limit);
    ghost var pos := Find(range, "..", 0);
    ghost var ends := if pos == None then Single(Meaning(repo, range, ZERO)) else EndsAt(repo, range, pos.value);
    forall n: nat
      ensures n < |log| <==> Within(limit, n) && Showable(repo.store, ends.from, ends.to, n)
      ensures n < |log| ==> log[n] == Nth(repo.store, ends.to, n)
    {
      LogIsRange(repo.store, ends.from, ends.to, revs.from, limit, log, n);
    }
    forall a, b | IsRange(range, a, b)
      ensures Shows(repo.store, Tip(repo, a), Tip(repo, b), limit, log)
    {
      LogShows(repo.store, Tip(repo, a), Tip(repo, b), revs.from, limit, log);
    }
  }

  /** The log of `a..b`, newest first: what is on the chain of `b` and not on that of `a`; all of it,
      unless there is a limit or something on the way cannot be shown. */
  ghost predicate Shows(store: map<Oid, Object>, a: Oid, b: Oid, limit: Option<nat>, log: seq<Oid>) {
    && (forall n | 0 <= n < |log| :: log[n] == Nth(store, b, n))
    && (forall x | x in log :: OnChain(store, x, b) && !OnChain(store, x, a) && x in store && store[x] != Coverage)
    && (limit == None && AllPresentable(store, b) ==>
          forall x | OnChain(store, x, b) && !OnChain(store, x, a) :: x in log)
  }

  lemma LogShows(store: map<Oid, Object>, a: Oid, b: Oid, from: Oid, limit: Option<nat>, log: seq<Oid>)
    requires IsStore(store) && Acyclic(store) && Located(store, a, b, from) && IsLog(store, from, b, limit, log)
    ensures Shows(store, a, b, limit, log)
  {
    forall n: nat | n < |log|
      ensures log[n] == Nth(store, b, n) && InRange(store, a, b, log[n]) && Presentable(store, log[n])
    {
      LogIsRange(store, a, b, from, limit, log, n);
    }
    if limit == None && AllPresentable(store, b) {
      RangeMeaning(store, a, b, from, log);
      assert forall x | OnChain(store, x, b) && !OnChain(store, x, a) :: InRange(store, a, b, x);
    }
  }

  /** A single revision is a range from nowhere. */
  function Single(parsed: Parsed): Ends {
    Ends(parsed.error, ZERO, parsed.oid)
  }
}
