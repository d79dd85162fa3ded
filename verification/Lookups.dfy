/**
 Matching with a table of bindings that grows while the match runs: a bound reference is matched
 again as what it is bound to.  On subjects without references this is `Match`; on others it need
 not end, and whether it always does can be read off the pattern.
 */
module Lookups {
  import opened Terms
  import opened Matching

  /** The result of a match, or nothing when it needs more lookups than allowed. */
  datatype Limited = Stopped | Ended(ok: bool, refs: Refs)

  /** What a bound reference is matched as. */
  function LookedUp(p: Expression, refs: Refs): Expression
    requires p.IsReference() && p.items[0].id in refs
  {
    refs[p.items[0].id].With(p.cvrs)
  }

  function Run(p: Expression, s: Expression, refs: Refs, important: bool, lookups: nat): Limited
    decreases lookups, p
  {
    if p.IsReference() then
      if p.items[0].id !in refs then Ended(true, refs[p.items[0].id := s])
      else if lookups == 0 then Stopped
      else Run(LookedUp(p, refs), s, refs, important, lookups - 1)
    else if |p.items| != |s.items| || (important && p.cvrs != s.cvrs) then Ended(false, refs)
    else RunItems(p.items, s.items, refs, lookups)
  }

  function RunItems(ps: seq<Item>, ss: seq<Item>, refs: Refs, lookups: nat): Limited
    requires |ps| == |ss|
    decreases lookups, ps
  {
    if ps == [] then Ended(true, refs)
    else
      match RunItem(ps[0], ss[0], refs, lookups)
      case Ended(true, more) => RunItems(ps[1..], ss[1..], more, lookups)
      case other => other
  }

  function RunItem(p: Item, s: Item, refs: Refs, lookups: nat): Limited
    decreases lookups, p
  {
    match (p, s)
    case (Text(a), Text(b)) => Ended(a == b, refs)
    case (Args(a), Args(b)) => RunArguments(a, b, refs, lookups)
    case _ => Ended(false, refs)
  }

  function RunArguments(p: ArgumentList, s: ArgumentList, refs: Refs, lookups: nat): Limited
    decreases lookups, p
  {
    if p.start != s.start || p.stop != s.stop || |p.items| != |s.items| then Ended(false, refs)
    else RunStatements(p.items, s.items, refs, lookups)
  }

  function RunStatements(ps: seq<Statement>, ss: seq<Statement>, refs: Refs, lookups: nat): Limited
    requires |ps| == |ss|
    decreases lookups, ps
  {
    if ps == [] then Ended(true, refs)
    else
      match RunStatement(ps[0], ss[0], refs, lookups)
      case Ended(true, more) => RunStatements(ps[1..], ss[1..], more, lookups)
      case other => other
  }

  function RunStatement(p: Statement, s: Statement, refs: Refs, lookups: nat): Limited
    decreases lookups, p
  {
    if |p.items| != |s.items| then Ended(false, refs) else RunExpressions(p.items, s.items, refs, lookups)
  }

  function RunExpressions(ps: seq<Expression>, ss: seq<Expression>, refs: Refs, lookups: nat): Limited
    requires |ps| == |ss|
    decreases lookups, ps
  {
    if ps == [] then Ended(true, refs)
    else
      match Run(ps[0], ss[0], refs, true, lookups)
      case Ended(true, more) => RunExpressions(ps[1..], ss[1..], more, lookups)
      case other => other
  }

  const NOTHING: Refs := map[]

  /** Some number of lookups is enough. */
  ghost predicate MatchEnds(p: Expression, s: Expression) {
    exists lookups: nat :: Run(p, s, NOTHING, false, lookups).Ended?
  }

  // ---------------------------------------------------------------------------
  // Subjects without references: the table is not seen

  /** Bound expressions are free of references. */
  ghost predicate Ground(refs: Refs) {
    forall id | id in refs :: RefFree(refs[id])
  }

  /** Bindings found in a subject without references hold no references themselves. */
  lemma {:induction false} MatchGround(p: Expression, s: Expression, refs: Refs, important: bool)
    requires RefFree(s) && Ground(refs)
    ensures Ground(Match(p, s, refs, important).refs)
  {
    if !p.IsReference() && |p.items| == |s.items| {
      MatchGroundItems(p.items, s.items, refs);
    }
  }

  lemma {:induction false} MatchGroundItems(ps: seq<Item>, ss: seq<Item>, refs: Refs)
    requires |ps| == |ss| && RefsOfItems(ss) == [] && Ground(refs)
    ensures Ground(MatchItems(ps, ss, refs).refs)
  {
    if ps == [] {
    } else {
      MatchGroundItem(ps[0], ss[0], refs);
      MatchGroundItems(ps[1..], ss[1..], MatchItem(ps[0], ss[0], refs).refs);
    }
  }

  lemma {:induction false} MatchGroundItem(p: Item, s: Item, refs: Refs)
    requires RefsOfItem(s) == [] && Ground(refs)
    ensures Ground(MatchItem(p, s, refs).refs)
  {
    if p.Args? && s.Args? && |p.args.items| == |s.args.items| {
      MatchGroundStatements(p.args.items, s.args.items, refs);
    }
  }

  lemma {:induction false} MatchGroundStatements(ps: seq<Statement>, ss: seq<Statement>, refs: Refs)
    requires |ps| == |ss| && RefsOfStatements(ss) == [] && Ground(refs)
    ensures Ground(MatchStatements(ps, ss, refs).refs)
  {
    if ps == [] {
    } else {
      if |ps[0].items| == |ss[0].items| {
        MatchGroundExpressions(ps[0].items, ss[0].items, refs);
      }
      MatchGroundStatements(ps[1..], ss[1..], MatchStatement(ps[0], ss[0], refs).refs);
    }
  }

  lemma {:induction false} MatchGroundExpressions(ps: seq<Expression>, ss: seq<Expression>, refs: Refs)
    requires |ps| == |ss| && RefsOfExpressions(ss) == [] && Ground(refs)
    ensures Ground(MatchExpressions(ps, ss, refs).refs)
  {
    if ps == [] {
    } else {
      MatchGround(ps[0], ss[0], refs, true);
      MatchGroundExpressions(ps[1..], ss[1..], Match(ps[0], ss[0], refs, true).refs);
    }
  }

  ghost predicate Agrees(r: Limited, outcome: Outcome) {
    r.Ended? ==> Outcome(r.ok, r.refs) == outcome
  }

  /** One lookup at a time is enough, and the result is that of `Match`. */
  lemma {:induction false} RunIsMatch(p: Expression, s: Expression, refs: Refs, important: bool, lookups: nat)
    requires RefFree(s) && Ground(refs)
    ensures Agrees(Run(p, s, refs, important, lookups), Match(p, s, refs, important))
    ensures lookups > 0 || RefFree(p) ==> Run(p, s, refs, important, lookups).Ended?
    decreases lookups, p
  {
    if p.IsReference() {
      if p.items[0].id in refs && lookups > 0 {
        RefFreeMatch(LookedUp(p, refs), s, refs, important);
        RunIsMatch(LookedUp(p, refs), s, refs, important, lookups - 1);
      }
      RefFreeIsNoReference(p);
    } else if |p.items| == |s.items| {
      RunItemsIsMatch(p.items, s.items, refs, lookups);
    }
  }

  lemma {:induction false} RunItemsIsMatch(ps: seq<Item>, ss: seq<Item>, refs: Refs, lookups: nat)
    requires |ps| == |ss| && RefsOfItems(ss) == [] && Ground(refs)
    ensures Agrees(RunItems(ps, ss, refs, lookups), MatchItems(ps, ss, refs))
    ensures lookups > 0 || RefsOfItems(ps) == [] ==> RunItems(ps, ss, refs, lookups).Ended?
    decreases lookups, ps
  {
    if ps == [] {
    } else {
      RunItemIsMatch(ps[0], ss[0], refs, lookups);
      MatchGroundItem(ps[0], ss[0], refs);
      RunItemsIsMatch(ps[1..], ss[1..], MatchItem(ps[0], ss[0], refs).refs, lookups);
    }
  }

  lemma {:induction false} RunItemIsMatch(p: Item, s: Item, refs: Refs, lookups: nat)
    requires RefsOfItem(s) == [] && Ground(refs)
    ensures Agrees(RunItem(p, s, refs, lookups), MatchItem(p, s, refs))
    ensures lookups > 0 || RefsOfItem(p) == [] ==> RunItem(p, s, refs, lookups).Ended?
    decreases lookups, p
  {
    if p.Args? && s.Args? && |p.args.items| == |s.args.items| {
      RunStatementsIsMatch(p.args.items, s.args.items, refs, lookups);
    }
  }

  lemma {:induction false} RunStatementsIsMatch(ps: seq<Statement>, ss: seq<Statement>, refs: Refs, lookups: nat)
    requires |ps| == |ss| && RefsOfStatements(ss) == [] && Ground(refs)
    ensures Agrees(RunStatements(ps, ss, refs, lookups), MatchStatements(ps, ss, refs))
    ensures lookups > 0 || RefsOfStatements(ps) == [] ==> RunStatements(ps, ss, refs, lookups).Ended?
    decreases lookups, ps
  {
    if ps == [] {
    } else {
      if |ps[0].items| == |ss[0].items| {
        RunExpressionsIsMatch(ps[0].items, ss[0].items, refs, lookups);
        MatchGroundExpressions(ps[0].items, ss[0].items, refs);
      }
      RunStatementsIsMatch(ps[1..], ss[1..], MatchStatement(ps[0], ss[0], refs).refs, lookups);
    }
  }

  lemma {:induction false} RunExpressionsIsMatch(ps: seq<Expression>, ss: seq<Expression>, refs: Refs, lookups: nat)
    requires |ps| == |ss| && RefsOfExpressions(ss) == [] && Ground(refs)
    ensures Agrees(RunExpressions(ps, ss, refs, lookups), MatchExpressions(ps, ss, refs))
    ensures lookups > 0 || RefsOfExpressions(ps) == [] ==> RunExpressions(ps, ss, refs, lookups).Ended?
    decreases lookups, ps
  {
    if ps == [] {
    } else {
      RunIsMatch(ps[0], ss[0], refs, true, lookups);
      MatchGround(ps[0], ss[0], refs, true);
      RunExpressionsIsMatch(ps[1..], ss[1..], Match(ps[0], ss[0], refs, true).refs, lookups);
    }
  }

  lemma RefFreeEnds(p: Expression, s: Expression)
    requires RefFree(s)
    ensures MatchEnds(p, s)
  {
    RunIsMatch(p, s, NOTHING, false, 1);
  }

  // ---------------------------------------------------------------------------
  // References that occur once are never looked up

  /** No reference is in `seen` or occurs again. */
  predicate NoRepeat(refs: seq<string>, seen: set<string>) {
    refs == [] || (refs[0] !in seen && NoRepeat(refs[1..], seen + {refs[0]}))
  }

  lemma {:induction false} NoRepeatConcat(a: seq<string>, b: seq<string>, seen: set<string>)
    ensures NoRepeat(a + b, seen) <==> NoRepeat(a, seen) && NoRepeat(b, seen + Ids(a))
  {
    if a == [] {
      assert a + b == b && seen + Ids(a) == seen;
    } else {
      assert (a + b)[1..] == a[1..] + b && a == [a[0]] + a[1..];
      NoRepeatConcat(a[1..], b, seen + {a[0]});
      assert seen + {a[0]} + Ids(a[1..]) == seen + Ids(a);
    }
  }

  lemma {:induction false} NoRepeatFewer(refs: seq<string>, seen: set<string>, fewer: set<string>)
    requires NoRepeat(refs, seen) && fewer <= seen
    ensures NoRepeat(refs, fewer)
  {
    if refs == [] {
    } else {
      NoRepeatFewer(refs[1..], seen + {refs[0]}, fewer + {refs[0]});
    }
  }

  /** The match ended, and bound nothing but the given references. */
  ghost predicate EndedWithin(r: Limited, ids: set<string>) {
    r.Ended? && r.refs.Keys <= ids
  }

  lemma {:induction false} RunWithoutRepeat(p: Expression, s: Expression, refs: Refs, important: bool)
    requires NoRepeat(RefsOfItems(p.items), refs.Keys)
    ensures EndedWithin(Run(p, s, refs, important, 0), refs.Keys + Ids(RefsOfItems(p.items)))
    decreases p
  {
    if p.IsReference() {
      assert RefsOfItems(p.items) == [p.items[0].id] by { assert p.items[1..] == []; }
    } else if |p.items| == |s.items| {
      RunItemsWithoutRepeat(p.items, s.items, refs);
    }
  }

  lemma {:induction false} RunItemsWithoutRepeat(ps: seq<Item>, ss: seq<Item>, refs: Refs)
    requires |ps| == |ss| && NoRepeat(RefsOfItems(ps), refs.Keys)
    ensures EndedWithin(RunItems(ps, ss, refs, 0), refs.Keys + Ids(RefsOfItems(ps)))
    decreases ps
  {
    if ps == [] {
    } else {
      Split(RefsOfItem(ps[0]), RefsOfItems(ps[1..]), refs.Keys);
      RunItemWithoutRepeat(ps[0], ss[0], refs);
      var head := RunItem(ps[0], ss[0], refs, 0);
      if head.ok {
        NoRepeatFewer(RefsOfItems(ps[1..]), refs.Keys + Ids(RefsOfItem(ps[0])), head.refs.Keys);
        RunItemsWithoutRepeat(ps[1..], ss[1..], head.refs);
      }
    }
  }

  lemma Split(a: seq<string>, b: seq<string>, seen: set<string>)
    ensures NoRepeat(a + b, seen) <==> NoRepeat(a, seen) && NoRepeat(b, seen + Ids(a))
    ensures Ids(a + b) == Ids(a) + Ids(b)
  {
    NoRepeatConcat(a, b, seen);
  }

  lemma {:induction false} RunItemWithoutRepeat(p: Item, s: Item, refs: Refs)
    requires NoRepeat(RefsOfItem(p), refs.Keys)
    ensures EndedWithin(RunItem(p, s, refs, 0), refs.Keys + Ids(RefsOfItem(p)))
    decreases p
  {
    if p.Args? && s.Args? && |p.args.items| == |s.args.items| {
      RunStatementsWithoutRepeat(p.args.items, s.args.items, refs);
    }
  }

  lemma {:induction false} RunStatementsWithoutRepeat(ps: seq<Statement>, ss: seq<Statement>, refs: Refs)
    requires |ps| == |ss| && NoRepeat(RefsOfStatements(ps), refs.Keys)
    ensures EndedWithin(RunStatements(ps, ss, refs, 0), refs.Keys + Ids(RefsOfStatements(ps)))
    decreases ps
  {
    if ps == [] {
    } else {
      Split(RefsOfExpressions(ps[0].items), RefsOfStatements(ps[1..]), refs.Keys);
      if |ps[0].items| == |ss[0].items| {
        RunExpressionsWithoutRepeat(ps[0].items, ss[0].items, refs);
      }
      var head := RunStatement(ps[0], ss[0], refs, 0);
      if head.ok {
        NoRepeatFewer(RefsOfStatements(ps[1..]), refs.Keys + Ids(RefsOfExpressions(ps[0].items)), head.refs.Keys);
        RunStatementsWithoutRepeat(ps[1..], ss[1..], head.refs);
      }
    }
  }

  lemma {:induction false} RunExpressionsWithoutRepeat(ps: seq<Expression>, ss: seq<Expression>, refs: Refs)
    requires |ps| == |ss| && NoRepeat(RefsOfExpressions(ps), refs.Keys)
    ensures EndedWithin(RunExpressions(ps, ss, refs, 0), refs.Keys + Ids(RefsOfExpressions(ps)))
    decreases ps
  {
    if ps == [] {
    } else {
      Split(RefsOfItems(ps[0].items), RefsOfExpressions(ps[1..]), refs.Keys);
      RunWithoutRepeat(ps[0], ss[0], refs, true);
      var head := Run(ps[0], ss[0], refs, true, 0);
      if head.ok {
        NoRepeatFewer(RefsOfExpressions(ps[1..]), refs.Keys + Ids(RefsOfItems(ps[0].items)), head.refs.Keys);
        RunExpressionsWithoutRepeat(ps[1..], ss[1..], head.refs);
      }
    }
  }

  // ---------------------------------------------------------------------------
  // With a repeat, the pattern as its own subject is matched forever

  /** References are the sole items of their expressions; in other places they never match. */
  predicate Sole(p: Expression) {
    p.IsReference() || SoleItems(p.items)
  }

  predicate SoleItems(items: seq<Item>) {
    items == [] || (SoleItem(items[0]) && SoleItems(items[1..]))
  }

  predicate SoleItem(item: Item) {
    !item.Reference? && (item.Args? ==> SoleStatements(item.args.items))
  }

  predicate SoleStatements(statements: seq<Statement>) {
    statements == [] || (SoleExpressions(statements[0].items) && SoleStatements(statements[1..]))
  }

  predicate SoleExpressions(expressions: seq<Expression>) {
    expressions == [] || (Sole(expressions[0]) && SoleExpressions(expressions[1..]))
  }

  /** Each name is bound to itself. */
  ghost predicate SelfBound(refs: Refs) {
    forall id | id in refs :: refs[id].items == [Reference(id)]
  }

  /** Looking up a name that is bound to itself leads to the same lookup, any number of times. */
  lemma {:induction false} SelfBoundNeverEnds(p: Expression, s: Expression, refs: Refs, important: bool, lookups: nat)
    requires p.IsReference() && p.items[0].id in refs && refs[p.items[0].id].items == [Reference(p.items[0].id)]
    ensures Run(p, s, refs, important, lookups) == Stopped
    decreases lookups
  {
    if lookups == 0 {
    } else {
      SelfBoundNeverEnds(LookedUp(p, refs), s, refs, important, lookups - 1);
    }
  }

  /** Matched with itself, each reference is bound to itself, up to the first repeat. */
  ghost predicate SelfRun(r: Limited, refs: Refs, ids: seq<string>) {
    if NoRepeat(ids, refs.Keys) then r.Ended? && r.ok && SelfBound(r.refs) && r.refs.Keys == refs.Keys + Ids(ids)
    else r.Stopped?
  }

  lemma {:induction false} RunWithItself(p: Expression, refs: Refs, important: bool, lookups: nat)
    requires Sole(p) && SelfBound(refs)
    ensures SelfRun(Run(p, p, refs, important, lookups), refs, RefsOfItems(p.items))
    decreases p
  {
    if p.IsReference() {
      var id := p.items[0].id;
      assert p.items == [Reference(id)];
      assert RefsOfItems(p.items) == [id] by { assert p.items[1..] == []; }
      assert NoRepeat([id], refs.Keys) <==> id !in refs by { assert [id][1..] == []; }
      if id in refs {
        SelfBoundNeverEnds(p, p, refs, important, lookups);
      }
    } else {
      RunItemsWithThemselves(p.items, refs, lookups);
    }
  }

  lemma {:induction false} RunItemsWithThemselves(ps: seq<Item>, refs: Refs, lookups: nat)
    requires SoleItems(ps) && SelfBound(refs)
    ensures SelfRun(RunItems(ps, ps, refs, lookups), refs, RefsOfItems(ps))
    decreases ps
  {
    if ps == [] {
    } else {
      Split(RefsOfItem(ps[0]), RefsOfItems(ps[1..]), refs.Keys);
      RunItemWithItself(ps[0], refs, lookups);
      var head := RunItem(ps[0], ps[0], refs, lookups);
      if head.Ended? {
        RunItemsWithThemselves(ps[1..], head.refs, lookups);
      }
    }
  }

  lemma {:induction false} RunItemWithItself(p: Item, refs: Refs, lookups: nat)
    requires SoleItem(p) && SelfBound(refs)
    ensures SelfRun(RunItem(p, p, refs, lookups), refs, RefsOfItem(p))
    decreases p
  {
    if p.Args? {
      RunStatementsWithThemselves(p.args.items, refs, lookups);
    }
  }

  lemma {:induction false} RunStatementsWithThemselves(ps: seq<Statement>, refs: Refs, lookups: nat)
    requires SoleStatements(ps) && SelfBound(refs)
    ensures SelfRun(RunStatements(ps, ps, refs, lookups), refs, RefsOfStatements(ps))
    decreases ps
  {
    if ps == [] {
    } else {
      Split(RefsOfExpressions(ps[0].items), RefsOfStatements(ps[1..]), refs.Keys);
      RunExpressionsWithThemselves(ps[0].items, refs, lookups);
      var head := RunStatement(ps[0], ps[0], refs, lookups);
      if head.Ended? {
        RunStatementsWithThemselves(ps[1..], head.refs, lookups);
      }
    }
  }

  lemma {:induction false} RunExpressionsWithThemselves(ps: seq<Expression>, refs: Refs, lookups: nat)
    requires SoleExpressions(ps) && SelfBound(refs)
    ensures SelfRun(RunExpressions(ps, ps, refs, lookups), refs, RefsOfExpressions(ps))
    decreases ps
  {
    if ps == [] {
    } else {
      Split(RefsOfItems(ps[0].items), RefsOfExpressions(ps[1..]), refs.Keys);
      RunWithItself(ps[0], refs, true, lookups);
      var head := Run(ps[0], ps[0], refs, true, lookups);
      if head.Ended? {
        RunExpressionsWithThemselves(ps[1..], head.refs, lookups);
      }
    }
  }

  /** Matching a pattern ends on every subject, with names of references or without, exactly if no
      reference occurs twice in it. */
  lemma MatchEndsExactly(p: Expression)
    requires Sole(p)
    ensures (forall s :: MatchEnds(p, s)) <==> NoRepeat(RefsOfItems(p.items), {})
  {
    assert NOTHING.Keys == {};
    if NoRepeat(RefsOfItems(p.items), {}) {
      forall s
        ensures MatchEnds(p, s)
      {
        RunWithoutRepeat(p, s, NOTHING, false);
      }
    } else {
      forall lookups: nat
        ensures Run(p, p, NOTHING, false, lookups).Stopped?
      {
        RunWithItself(p, NOTHING, false, lookups);
      }
      assert !MatchEnds(p, p);
    }
  }

  // A rule of the table that comes with the program repeats a reference, as many do.

  function Angled(statements: seq<Statement>): Item {
    Args(ArgumentList(OPEN_ANGLE_BRACKET, CLOSE_ANGLE_BRACKET, statements))
  }

  /** name<statements> */
  function Template(name: string, statements: seq<Statement>): Expression {
    Expression([Text(name), Angled(statements)], [])
  }

  /** outer<first, inner<second>> */
  function Nested(outer: string, first: Expression, inner: string, second: Expression): Expression {
    Template(outer, [Statement([first]), Statement([Template(inner, [Statement([second])])])])
  }

  lemma {:induction false} OneStatement(p: Expression, s: Expression, refs: Refs, lookups: nat)
    ensures RunStatement(Statement([p]), Statement([s]), refs, lookups) == Run(p, s, refs, true, lookups)
  {
    assert [p][1..] == [] && [s][1..] == [];
    var head := Run(p, s, refs, true, lookups);
    if head.Ended? && head.ok {
      assert RunExpressions([], [], head.refs, lookups) == Ended(true, head.refs);
    }
    assert RunExpressions([p], [s], refs, lookups) == head;
  }

  lemma {:induction false} TemplateStops(
    name: string, ps: seq<Statement>, ss: seq<Statement>, refs: Refs, important: bool, lookups: nat)
    requires |ps| == |ss| && RunStatements(ps, ss, refs, lookups).Stopped?
    ensures Run(Template(name, ps), Template(name, ss), refs, important, lookups).Stopped?
  {
    var p, s := Template(name, ps).items, Template(name, ss).items;
    assert p[1..] == [Angled(ps)] && s[1..] == [Angled(ss)];
    assert RunItem(Angled(ps), Angled(ss), refs, lookups).Stopped?;
    assert RunItems(p[1..], s[1..], refs, lookups).Stopped?;
    assert RunItem(p[0], s[0], refs, lookups) == Ended(true, refs);
  }

  /** The first argument of such a subject is the reference itself. */
  lemma RepeatNeverEnds(outer: string, inner: string, id: string, other: Expression)
    ensures var x := Expression([Reference(id)], []);
            && Run(x, x, NOTHING, true, 0) == Ended(true, map[id := x])
            && !MatchEnds(Nested(outer, x, inner, x), Nested(outer, x, inner, other))
  {
    var x := Expression([Reference(id)], []);
    var bound: Refs := NOTHING[id := x];
    forall lookups: nat
      ensures Run(Nested(outer, x, inner, x), Nested(outer, x, inner, other), NOTHING, false, lookups).Stopped?
    {
      SelfBoundNeverEnds(x, other, bound, true, lookups);
      RunNested(outer, x, inner, other, bound, lookups);
    }
  }

  lemma {:induction false} RunNested(outer: string, x: Expression, inner: string, other: Expression, bound: Refs, lookups: nat)
    requires x.IsReference() && bound == NOTHING[x.items[0].id := x] && Run(x, other, bound, true, lookups).Stopped?
    ensures Run(Nested(outer, x, inner, x), Nested(outer, x, inner, other), NOTHING, false, lookups).Stopped?
  {
    var q, t := Template(inner, [Statement([x])]), Template(inner, [Statement([other])]);
    OneStatement(x, other, bound, lookups);
    assert RunStatements([Statement([x])], [Statement([other])], bound, lookups).Stopped?;
    TemplateStops(inner, [Statement([x])], [Statement([other])], bound, true, lookups);
    OneStatement(q, t, bound, lookups);
    OneStatement(x, x, NOTHING, lookups);
    var ps, ss := [Statement([x]), Statement([q])], [Statement([x]), Statement([t])];
    assert ps[1..] == [Statement([q])] && ss[1..] == [Statement([t])];
    assert RunStatements(ps[1..], ss[1..], bound, lookups).Stopped?;
    assert RunStatements(ps, ss, NOTHING, lookups).Stopped?;
    TemplateStops(outer, ps, ss, NOTHING, false, lookups);
  }

  /** The rule for vectors, on the name `std::vector<$1, std::allocator<int>>`. */
  lemma VectorRuleNeverEnds()
    ensures var x := Expression([Reference("$1")], []);
            !MatchEnds(Nested("std::vector", x, "std::allocator", x),
                       Nested("std::vector", x, "std::allocator", Expression([Text("int")], [])))
  {
    RepeatNeverEnds("std::vector", "std::allocator", "$1", Expression([Text("int")], []));
  }
}
