/**
 `matches` as the program runs it: the binding table is shared by the whole match and grows in
 place, and a bound reference is matched again through the table.
 */
module Matcher {
  import opened Wrappers
  import opened Terms
  import opened Matching
  import opened Lookups

  class RefTable {
    var refs: Refs

    constructor ()
      ensures refs == NOTHING
    {
      refs := NOTHING;
    }
  }

  method MatchReference(p: Expression, oth: Expression, table: RefTable, important: bool, ghost lookups: nat)
    returns (ok: bool)
    requires p.IsReference() && Run(p, oth, table.refs, important, lookups).Ended?
    modifies table
    ensures Ended(ok, table.refs) == Run(p, oth, old(table.refs), important, lookups)
    decreases lookups, p, 0
  {
    var id := p.items[0].id;
    if id !in table.refs {
      table.refs := table.refs[id := oth];
      return true;
    }
    var matcher := LookedUp(p, table.refs);
    ok := MatchExpression(matcher, oth, table, important, lookups - 1);
  }

  method MatchExpression(p: Expression, oth: Expression, table: RefTable, important: bool, ghost lookups: nat)
    returns (ok: bool)
    requires Run(p, oth, table.refs, important, lookups).Ended?
    modifies table
    ensures Ended(ok, table.refs) == Run(p, oth, old(table.refs), important, lookups)
    decreases lookups, p, 1
  {
    if |p.items| == 1 && p.items[0].Reference? {
      ok := MatchReference(p, oth, table, important, lookups);
      return;
    }
    if |p.items| != |oth.items| {
      return false;
    }
    if important {
      if p.cvrs != oth.cvrs {
        return false;
      }
    }
    ghost var all := RunItems(p.items, oth.items, table.refs, lookups);
    assert p.items[0..] == p.items && oth.items[0..] == oth.items;
    var i := 0;
    while i < |p.items|
      invariant 0 <= i <= |p.items|
      invariant RunItems(p.items[i..], oth.items[i..], table.refs, lookups) == all
    {
      var left, right := p.items[i], oth.items[i];
      assert p.items[i..][1..] == p.items[i + 1..] && oth.items[i..][1..] == oth.items[i + 1..];
      match (left, right) {
        case (Text(a), Text(b)) =>
          if a != b {
            return false;
          }
        case (Args(a), Args(b)) =>
          var same := MatchArgumentList(a, b, table, lookups);
          if !same {
            return false;
          }
        case _ =>
          return false;
      }
      i := i + 1;
    }
    return true;
  }

  method MatchArgumentList(p: ArgumentList, oth: ArgumentList, table: RefTable, ghost lookups: nat) returns (ok: bool)
    requires RunArguments(p, oth, table.refs, lookups).Ended?
    modifies table
    ensures Ended(ok, table.refs) == RunArguments(p, oth, old(table.refs), lookups)
    decreases lookups, p
  {
    if p.start != oth.start {
      return false;
    }
    if p.stop != oth.stop {
      return false;
    }
    if |p.items| != |oth.items| {
      return false;
    }
    ghost var all := RunStatements(p.items, oth.items, table.refs, lookups);
    assert p.items[0..] == p.items && oth.items[0..] == oth.items;
    var i := 0;
    while i < |p.items|
      invariant 0 <= i <= |p.items|
      invariant RunStatements(p.items[i..], oth.items[i..], table.refs, lookups) == all
    {
      assert p.items[i..][1..] == p.items[i + 1..] && oth.items[i..][1..] == oth.items[i + 1..];
      var same := MatchOneStatement(p.items[i], oth.items[i], table, lookups);
      if !same {
        return false;
      }
      i := i + 1;
    }
    return true;
  }

  method MatchOneStatement(p: Statement, oth: Statement, table: RefTable, ghost lookups: nat) returns (ok: bool)
    requires RunStatement(p, oth, table.refs, lookups).Ended?
    modifies table
    ensures Ended(ok, table.refs) == RunStatement(p, oth, old(table.refs), lookups)
    decreases lookups, p
  {
    if |p.items| != |oth.items| {
      return false;
    }
    ghost var all := RunExpressions(p.items, oth.items, table.refs, lookups);
    assert p.items[0..] == p.items && oth.items[0..] == oth.items;
    var i := 0;
    while i < |p.items|
      invariant 0 <= i <= |p.items|
      invariant RunExpressions(p.items[i..], oth.items[i..], table.refs, lookups) == all
    {
      assert p.items[i..][1..] == p.items[i + 1..] && oth.items[i..][1..] == oth.items[i + 1..];
      var same := MatchExpression(p.items[i], oth.items[i], table, true, lookups);
      if !same {
        return false;
      }
      i := i + 1;
    }
    return true;
  }

  /** The result of a match that starts without bindings and ignores the outermost levels. */
  ghost predicate IsResult(p: Expression, oth: Expression, result: Option<Refs>) {
    exists lookups: nat ::
      var r := Run(p, oth, NOTHING, false, lookups);
      r.Ended? && result == if r.ok then Some(r.refs) else None
  }

  method MatchSubject(p: Expression, oth: Expression) returns (result: Option<Refs>)
    requires MatchEnds(p, oth)
    ensures IsResult(p, oth, result)
    ensures RefFree(oth) ==> result == Matches(p, oth)
  {
    ghost var lookups: nat :| Run(p, oth, NOTHING, false, lookups).Ended?;
    var table := new RefTable();
    var ok := MatchExpression(p, oth, table, false, lookups);
    if RefFree(oth) {
      RunIsMatch(p, oth, NOTHING, false, lookups);
    }
    if !ok {
      return None;
    }
    return Some(table.refs);
  }
}
