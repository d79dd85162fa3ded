/**
 Matching a pattern against a subject and substituting the bindings it found
 (`matches` and `replace_with`).  The functions say what the methods at the end compute;
 the lemmas say what that means.
 */
module Matching {
  import opened Wrappers
  import opened Terms

  datatype Outcome = Outcome(ok: bool, refs: Refs)

  // ---------------------------------------------------------------------------
  // Matching: an unbound reference binds the whole subject, a bound one must equal it

  function Match(p: Expression, s: Expression, refs: Refs, important: bool): Outcome {
    if p.IsReference() then
      var id := p.items[0].id;
      if id in refs then Outcome(Same(refs[id].With(p.cvrs), s, important), refs)
      else Outcome(true, refs[id := s])
    else if |p.items| != |s.items| || (important && p.cvrs != s.cvrs) then
      Outcome(false, refs)
    else
      MatchItems(p.items, s.items, refs)
  }

  function MatchItems(ps: seq<Item>, ss: seq<Item>, refs: Refs): Outcome
    requires |ps| == |ss|
  {
    if ps == [] then Outcome(true, refs)
    else
      var head := MatchItem(ps[0], ss[0], refs);
      if head.ok then MatchItems(ps[1..], ss[1..], head.refs) else head
  }

  function MatchItem(p: Item, s: Item, refs: Refs): Outcome {
    match (p, s)
    case (Text(a), Text(b)) => Outcome(a == b, refs)
    case (Args(a), Args(b)) => MatchArguments(a, b, refs)
    case _ => Outcome(false, refs)
  }

  function MatchArguments(p: ArgumentList, s: ArgumentList, refs: Refs): Outcome {
    if p.start != s.start || p.stop != s.stop || |p.items| != |s.items| then Outcome(false, refs)
    else MatchStatements(p.items, s.items, refs)
  }

  function MatchStatements(ps: seq<Statement>, ss: seq<Statement>, refs: Refs): Outcome
    requires |ps| == |ss|
  {
    if ps == [] then Outcome(true, refs)
    else
      var head := MatchStatement(ps[0], ss[0], refs);
      if head.ok then MatchStatements(ps[1..], ss[1..], head.refs) else head
  }

  function MatchStatement(p: Statement, s: Statement, refs: Refs): Outcome {
    if |p.items| != |s.items| then Outcome(false, refs) else MatchExpressions(p.items, s.items, refs)
  }

  function MatchExpressions(ps: seq<Expression>, ss: seq<Expression>, refs: Refs): Outcome
    requires |ps| == |ss|
  {
    if ps == [] then Outcome(true, refs)
    else
      var head := Match(ps[0], ss[0], refs, true);
      if head.ok then MatchExpressions(ps[1..], ss[1..], head.refs) else head
  }

  /** The public match: nothing is bound yet and the outermost levels do not count. */
  function Matches(p: Expression, s: Expression): (r: Option<Refs>) {
    var outcome := Match(p, s, map[], false);
    if outcome.ok then Some(outcome.refs) else None
  }

  // ---------------------------------------------------------------------------
  // Substitution as the simplifier does it: only the last expression of a statement is replaced

  function Replace(p: Expression, refs: Refs, cvrs: Cvrs): Expression {
    if p.IsReference() then
      var id := p.items[0].id;
      if id in refs then refs[id].With(p.cvrs) else Expression(UNBOUND, p.cvrs)
    else
      Expression(ReplaceItems(p.items, refs), cvrs)
  }

  function ReplaceItems(items: seq<Item>, refs: Refs): seq<Item> {
    if items == [] then [] else [ReplaceItem(items[0], refs)] + ReplaceItems(items[1..], refs)
  }

  function ReplaceItem(item: Item, refs: Refs): Item {
    match item
    case Text(_) => item
    case Reference(_) => item
    case Args(args) => Args(ArgumentList(args.start, args.stop, ReplaceStatements(args.items, refs)))
  }

  function ReplaceStatements(statements: seq<Statement>, refs: Refs): seq<Statement> {
    if statements == [] then []
    else [Statement(ReplaceLast(statements[0].items, refs))] + ReplaceStatements(statements[1..], refs)
  }

  function ReplaceLast(expressions: seq<Expression>, refs: Refs): seq<Expression> {
    if expressions == [] then []
    else if |expressions| == 1 then [Replace(expressions[0], refs, expressions[0].cvrs)]
    else [expressions[0]] + ReplaceLast(expressions[1..], refs)
  }

  // ---------------------------------------------------------------------------
  // When matching and substitution are inverse: the first occurrence of every reference
  // carries no levels, and references stay in the last expression of a statement.

  /** The first occurrence of every reference outside `seen` carries no levels. */
  predicate Bare(p: Expression, seen: set<string>) {
    if p.IsReference() then p.items[0].id in seen || p.cvrs == []
    else BareItems(p.items, seen)
  }

  predicate BareItems(items: seq<Item>, seen: set<string>) {
    items == [] || (BareItem(items[0], seen) && BareItems(items[1..], seen + Ids(RefsOfItem(items[0]))))
  }

  predicate BareItem(item: Item, seen: set<string>) {
    item.Args? ==> BareStatements(item.args.items, seen)
  }

  predicate BareStatements(statements: seq<Statement>, seen: set<string>) {
    statements == []
    || (BareExpressions(statements[0].items, seen)
        && BareStatements(statements[1..], seen + Ids(RefsOfExpressions(statements[0].items))))
  }

  predicate BareExpressions(expressions: seq<Expression>, seen: set<string>) {
    expressions == []
    || (Bare(expressions[0], seen)
        && BareExpressions(expressions[1..], seen + Ids(RefsOfItems(expressions[0].items))))
  }

  /** Only the last expression of any statement holds references. */
  predicate LastOnly(p: Expression) {
    p.IsReference() || LastOnlyItems(p.items)
  }

  predicate LastOnlyItems(items: seq<Item>) {
    items == [] || (LastOnlyItem(items[0]) && LastOnlyItems(items[1..]))
  }

  predicate LastOnlyItem(item: Item) {
    item.Args? ==> LastOnlyStatements(item.args.items)
  }

  predicate LastOnlyStatements(statements: seq<Statement>) {
    statements == [] || (LastOnlyExpressions(statements[0].items) && LastOnlyStatements(statements[1..]))
  }

  predicate LastOnlyExpressions(expressions: seq<Expression>) {
    expressions == []
    || (if |expressions| == 1 then LastOnly(expressions[0])
        else RefFree(expressions[0]) && LastOnlyExpressions(expressions[1..]))
  }

  predicate Invertible(p: Expression) {
    Bare(p, {}) && LastOnly(p)
  }

  // ---------------------------------------------------------------------------
  // A pattern without references matches exactly itself and binds nothing

  lemma RefFreeIsNoReference(e: Expression)
    ensures RefFree(e) ==> !e.IsReference()
  {
    assert e.items != [] ==> RefsOfItems(e.items) == RefsOfItem(e.items[0]) + RefsOfItems(e.items[1..]);
  }

  lemma {:induction false} RefFreeMatch(p: Expression, s: Expression, refs: Refs, important: bool)
    requires RefFree(p)
    ensures Match(p, s, refs, important) == Outcome(Same(p, s, important), refs)
  {
    RefFreeIsNoReference(p);
    if |p.items| == |s.items| {
      RefFreeMatchItems(p.items, s.items, refs);
    }
  }

  lemma {:induction false} RefFreeMatchItems(ps: seq<Item>, ss: seq<Item>, refs: Refs)
    requires |ps| == |ss| && RefsOfItems(ps) == []
    ensures MatchItems(ps, ss, refs) == Outcome(ps == ss, refs)
  {
    if ps == [] {
    } else {
      RefFreeMatchItem(ps[0], ss[0], refs);
      RefFreeMatchItems(ps[1..], ss[1..], refs);
      assert ps == [ps[0]] + ps[1..] && ss == [ss[0]] + ss[1..];
    }
  }

  lemma {:induction false} RefFreeMatchItem(p: Item, s: Item, refs: Refs)
    requires RefsOfItem(p) == []
    ensures MatchItem(p, s, refs) == Outcome(p == s, refs)
  {
    if p.Args? && s.Args? && |p.args.items| == |s.args.items| {
      RefFreeMatchStatements(p.args.items, s.args.items, refs);
    }
  }

  lemma {:induction false} RefFreeMatchStatements(ps: seq<Statement>, ss: seq<Statement>, refs: Refs)
    requires |ps| == |ss| && RefsOfStatements(ps) == []
    ensures MatchStatements(ps, ss, refs) == Outcome(ps == ss, refs)
  {
    if ps == [] {
    } else {
      if |ps[0].items| == |ss[0].items| {
        RefFreeMatchExpressions(ps[0].items, ss[0].items, refs);
      }
      RefFreeMatchStatements(ps[1..], ss[1..], refs);
      assert ps == [ps[0]] + ps[1..] && ss == [ss[0]] + ss[1..];
    }
  }

  lemma {:induction false} RefFreeMatchExpressions(ps: seq<Expression>, ss: seq<Expression>, refs: Refs)
    requires |ps| == |ss| && RefsOfExpressions(ps) == []
    ensures MatchExpressions(ps, ss, refs) == Outcome(ps == ss, refs)
  {
    if ps == [] {
    } else {
      RefFreeMatch(ps[0], ss[0], refs, true);
      RefFreeMatchExpressions(ps[1..], ss[1..], refs);
      assert ps == [ps[0]] + ps[1..] && ss == [ss[0]] + ss[1..];
    }
  }

  // ---------------------------------------------------------------------------
  // What a match binds: earlier bindings stay, and a success binds exactly the pattern's references

  lemma {:induction false} MatchBinds(p: Expression, s: Expression, refs: Refs, important: bool)
    ensures var r := Match(p, s, refs, important);
            Extends(refs, r.refs) && (r.ok ==> r.refs.Keys == refs.Keys + Ids(RefsOfItems(p.items)))
  {
    if p.IsReference() {
      assert RefsOfItems(p.items) == [p.items[0].id] by { assert p.items[1..] == []; }
    } else if |p.items| == |s.items| {
      MatchItemsBinds(p.items, s.items, refs);
    }
  }

  lemma {:induction false} MatchItemsBinds(ps: seq<Item>, ss: seq<Item>, refs: Refs)
    requires |ps| == |ss|
    ensures var r := MatchItems(ps, ss, refs);
            Extends(refs, r.refs) && (r.ok ==> r.refs.Keys == refs.Keys + Ids(RefsOfItems(ps)))
  {
    if ps == [] {
    } else {
      MatchItemBinds(ps[0], ss[0], refs);
      MatchItemsBinds(ps[1..], ss[1..], MatchItem(ps[0], ss[0], refs).refs);
      assert Ids(RefsOfItems(ps)) == Ids(RefsOfItem(ps[0])) + Ids(RefsOfItems(ps[1..]));
    }
  }

  lemma {:induction false} MatchItemBinds(p: Item, s: Item, refs: Refs)
    ensures var r := MatchItem(p, s, refs);
            Extends(refs, r.refs) && (r.ok ==> r.refs.Keys == refs.Keys + Ids(RefsOfItem(p)))
  {
    if p.Args? && s.Args? && |p.args.items| == |s.args.items| {
      MatchStatementsBinds(p.args.items, s.args.items, refs);
    }
  }

  lemma {:induction false} MatchStatementsBinds(ps: seq<Statement>, ss: seq<Statement>, refs: Refs)
    requires |ps| == |ss|
    ensures var r := MatchStatements(ps, ss, refs);
            Extends(refs, r.refs) && (r.ok ==> r.refs.Keys == refs.Keys + Ids(RefsOfStatements(ps)))
  {
    if ps == [] {
    } else {
      if |ps[0].items| == |ss[0].items| {
        MatchExpressionsBinds(ps[0].items, ss[0].items, refs);
      }
      MatchStatementsBinds(ps[1..], ss[1..], MatchStatement(ps[0], ss[0], refs).refs);
      assert Ids(RefsOfStatements(ps)) == Ids(RefsOfExpressions(ps[0].items)) + Ids(RefsOfStatements(ps[1..]));
    }
  }

  lemma {:induction false} MatchExpressionsBinds(ps: seq<Expression>, ss: seq<Expression>, refs: Refs)
    requires |ps| == |ss|
    ensures var r := MatchExpressions(ps, ss, refs);
            Extends(refs, r.refs) && (r.ok ==> r.refs.Keys == refs.Keys + Ids(RefsOfExpressions(ps)))
  {
    if ps == [] {
    } else {
      MatchBinds(ps[0], ss[0], refs, true);
      MatchExpressionsBinds(ps[1..], ss[1..], Match(ps[0], ss[0], refs, true).refs);
      assert Ids(RefsOfExpressions(ps)) == Ids(RefsOfItems(ps[0].items)) + Ids(RefsOfExpressions(ps[1..]));
    }
  }

  // ---------------------------------------------------------------------------
  // Soundness: a successful match makes the subject an instance of the pattern

  lemma {:induction false} MatchSound(p: Expression, s: Expression, refs: Refs, important: bool)
    requires Bare(p, refs.Keys) && Match(p, s, refs, important).ok
    ensures Same(Instance(p, Match(p, s, refs, important).refs), s, important)
  {
    if p.IsReference() {
    } else {
      MatchItemsSound(p.items, s.items, refs);
    }
  }

  lemma {:induction false} MatchItemsSound(ps: seq<Item>, ss: seq<Item>, refs: Refs)
    requires |ps| == |ss| && BareItems(ps, refs.Keys) && MatchItems(ps, ss, refs).ok
    ensures ItemInstances(ps, MatchItems(ps, ss, refs).refs) == ss
  {
    if ps == [] {
    } else {
      var head := MatchItem(ps[0], ss[0], refs);
      MatchItemSound(ps[0], ss[0], refs);
      MatchItemBinds(ps[0], ss[0], refs);
      MatchItemsSound(ps[1..], ss[1..], head.refs);
      MatchItemsBinds(ps[1..], ss[1..], head.refs);
      ItemInstanceStable(ps[0], head.refs, MatchItems(ps, ss, refs).refs);
      assert ss == [ss[0]] + ss[1..];
    }
  }

  lemma {:induction false} MatchItemSound(p: Item, s: Item, refs: Refs)
    requires BareItem(p, refs.Keys) && MatchItem(p, s, refs).ok
    ensures ItemInstance(p, MatchItem(p, s, refs).refs) == s
  {
    if p.Args? {
      MatchStatementsSound(p.args.items, s.args.items, refs);
    }
  }

  lemma {:induction false} MatchStatementsSound(ps: seq<Statement>, ss: seq<Statement>, refs: Refs)
    requires |ps| == |ss| && BareStatements(ps, refs.Keys) && MatchStatements(ps, ss, refs).ok
    ensures StatementInstances(ps, MatchStatements(ps, ss, refs).refs) == ss
  {
    if ps == [] {
    } else {
      hide MatchExpressions, ExpressionInstances, BareExpressions;
      var head := MatchExpressions(ps[0].items, ss[0].items, refs);
      MatchExpressionsSound(ps[0].items, ss[0].items, refs);
      MatchExpressionsBinds(ps[0].items, ss[0].items, refs);
      MatchStatementsSound(ps[1..], ss[1..], head.refs);
      MatchStatementsBinds(ps[1..], ss[1..], head.refs);
      ExpressionInstancesStable(ps[0].items, head.refs, MatchStatements(ps, ss, refs).refs);
      assert ss == [ss[0]] + ss[1..];
    }
  }

  lemma {:induction false} MatchExpressionsSound(ps: seq<Expression>, ss: seq<Expression>, refs: Refs)
    requires |ps| == |ss| && BareExpressions(ps, refs.Keys) && MatchExpressions(ps, ss, refs).ok
    ensures ExpressionInstances(ps, MatchExpressions(ps, ss, refs).refs) == ss
  {
    if ps == [] {
    } else {
      var head := Match(ps[0], ss[0], refs, true);
      MatchSound(ps[0], ss[0], refs, true);
      MatchBinds(ps[0], ss[0], refs, true);
      MatchExpressionsSound(ps[1..], ss[1..], head.refs);
      MatchExpressionsBinds(ps[1..], ss[1..], head.refs);
      InstanceStable(ps[0], head.refs, MatchExpressions(ps, ss, refs).refs);
      assert ss == [ss[0]] + ss[1..];
    }
  }

  // ---------------------------------------------------------------------------
  // Completeness: if some substitution makes the pattern equal the subject, matching succeeds
  // and finds it

  lemma {:induction false} MatchComplete(p: Expression, s: Expression, refs: Refs, important: bool, sigma: Refs)
    requires Bare(p, refs.Keys) && Extends(refs, sigma) && Ids(RefsOfItems(p.items)) <= sigma.Keys
    requires RefFree(s) && Same(Instance(p, sigma), s, important)
    requires important || !p.IsReference()
    ensures var r := Match(p, s, refs, important); r.ok && Extends(r.refs, sigma)
  {
    if p.IsReference() {
      assert p.items[0].id in Ids(RefsOfItems(p.items));
    } else {
      ItemInstancesLength(p.items, sigma);
      MatchItemsComplete(p.items, s.items, refs, sigma);
    }
  }

  lemma {:induction false} ItemInstancesLength(items: seq<Item>, refs: Refs)
    ensures |ItemInstances(items, refs)| == |items|
  {
    if items == [] {
    } else {
      ItemInstancesLength(items[1..], refs);
    }
  }

  lemma {:induction false} StatementInstancesLength(statements: seq<Statement>, refs: Refs)
    ensures |StatementInstances(statements, refs)| == |statements|
  {
    if statements == [] {
    } else {
      StatementInstancesLength(statements[1..], refs);
    }
  }

  lemma {:induction false} ExpressionInstancesLength(expressions: seq<Expression>, refs: Refs)
    ensures |ExpressionInstances(expressions, refs)| == |expressions|
  {
    if expressions == [] {
    } else {
      ExpressionInstancesLength(expressions[1..], refs);
    }
  }

  lemma {:induction false} MatchItemsComplete(ps: seq<Item>, ss: seq<Item>, refs: Refs, sigma: Refs)
    requires BareItems(ps, refs.Keys) && Extends(refs, sigma) && Ids(RefsOfItems(ps)) <= sigma.Keys
    requires RefsOfItems(ss) == [] && |ps| == |ss| && ItemInstances(ps, sigma) == ss
    ensures var r := MatchItems(ps, ss, refs); r.ok && Extends(r.refs, sigma)
  {
    if ps == [] {
    } else {
      assert ss[0] == ItemInstance(ps[0], sigma) && ss[1..] == ItemInstances(ps[1..], sigma);
      assert Ids(RefsOfItems(ps)) == Ids(RefsOfItem(ps[0])) + Ids(RefsOfItems(ps[1..]));
      MatchItemComplete(ps[0], ss[0], refs, sigma);
      MatchItemBinds(ps[0], ss[0], refs);
      MatchItemsComplete(ps[1..], ss[1..], MatchItem(ps[0], ss[0], refs).refs, sigma);
    }
  }

  lemma {:induction false} MatchItemComplete(p: Item, s: Item, refs: Refs, sigma: Refs)
    requires BareItem(p, refs.Keys) && Extends(refs, sigma) && Ids(RefsOfItem(p)) <= sigma.Keys
    requires RefsOfItem(s) == [] && ItemInstance(p, sigma) == s
    ensures var r := MatchItem(p, s, refs); r.ok && Extends(r.refs, sigma)
  {
    if p.Args? {
      StatementInstancesLength(p.args.items, sigma);
      MatchStatementsComplete(p.args.items, s.args.items, refs, sigma);
    }
  }

  lemma {:induction false} MatchStatementsComplete(ps: seq<Statement>, ss: seq<Statement>, refs: Refs, sigma: Refs)
    requires BareStatements(ps, refs.Keys) && Extends(refs, sigma) && Ids(RefsOfStatements(ps)) <= sigma.Keys
    requires RefsOfStatements(ss) == [] && |ps| == |ss| && StatementInstances(ps, sigma) == ss
    ensures var r := MatchStatements(ps, ss, refs); r.ok && Extends(r.refs, sigma)
  {
    if ps == [] {
    } else {
      assert ss[0].items == ExpressionInstances(ps[0].items, sigma) && ss[1..] == StatementInstances(ps[1..], sigma);
      assert Ids(RefsOfStatements(ps)) == Ids(RefsOfExpressions(ps[0].items)) + Ids(RefsOfStatements(ps[1..]));
      ExpressionInstancesLength(ps[0].items, sigma);
      MatchExpressionsComplete(ps[0].items, ss[0].items, refs, sigma);
      MatchExpressionsBinds(ps[0].items, ss[0].items, refs);
      MatchStatementsComplete(ps[1..], ss[1..], MatchStatement(ps[0], ss[0], refs).refs, sigma);
    }
  }

  lemma {:induction false} MatchExpressionsComplete(ps: seq<Expression>, ss: seq<Expression>, refs: Refs, sigma: Refs)
    requires BareExpressions(ps, refs.Keys) && Extends(refs, sigma) && Ids(RefsOfExpressions(ps)) <= sigma.Keys
    requires RefsOfExpressions(ss) == [] && |ps| == |ss| && ExpressionInstances(ps, sigma) == ss
    ensures var r := MatchExpressions(ps, ss, refs); r.ok && Extends(r.refs, sigma)
  {
    if ps == [] {
    } else {
      assert ss[0] == Instance(ps[0], sigma) && ss[1..] == ExpressionInstances(ps[1..], sigma);
      assert Ids(RefsOfExpressions(ps)) == Ids(RefsOfItems(ps[0].items)) + Ids(RefsOfExpressions(ps[1..]));
      MatchComplete(ps[0], ss[0], refs, true, sigma);
      MatchBinds(ps[0], ss[0], refs, true);
      MatchExpressionsComplete(ps[1..], ss[1..], Match(ps[0], ss[0], refs, true).refs, sigma);
    }
  }

  /** The bindings `sigma` make the pattern equal the subject.  The outermost levels of the
      subject count only when the whole pattern is one reference, which takes them along. */
  ghost predicate Solves(sigma: Refs, p: Expression, s: Expression) {
    Ids(RefsOfItems(p.items)) <= sigma.Keys && Same(Instance(p, sigma), s, p.IsReference())
  }

  /** A match succeeds exactly when some substitution solves it; the bindings found are that
      substitution cut down to the pattern's references, so there is only one. */
  lemma MatchFindsTheSubstitution(p: Expression, s: Expression)
    requires Bare(p, {}) && RefFree(s)
    ensures Matches(p, s).Some? <==> exists sigma :: Solves(sigma, p, s)
    ensures Matches(p, s).Some? ==> Solves(Matches(p, s).value, p, s)
    ensures forall sigma: Refs | Solves(sigma, p, s) ::
              Matches(p, s) == Some(map id | id in sigma && id in Ids(RefsOfItems(p.items)) :: sigma[id])
  {
    var none: Refs := map[];
    assert none.Keys == {};
    var r := Match(p, s, none, false);
    MatchBinds(p, s, none, false);
    if r.ok {
      MatchSound(p, s, none, false);
      assert Solves(r.refs, p, s);
    }
    forall sigma: Refs | Solves(sigma, p, s)
      ensures r.ok && r.refs == map id | id in sigma && id in Ids(RefsOfItems(p.items)) :: sigma[id]
    {
      if p.IsReference() {
        assert p.items[0].id in Ids(RefsOfItems(p.items));
        assert sigma[p.items[0].id].With([]) == sigma[p.items[0].id];
      } else {
        MatchComplete(p, s, none, false, sigma);
      }
    }
  }

  // ---------------------------------------------------------------------------
  // Replacing the last expressions only is full substitution when the rest has no references

  lemma {:induction false} ReplaceIsInstance(p: Expression, refs: Refs)
    requires LastOnly(p)
    ensures Replace(p, refs, p.cvrs) == Instance(p, refs)
  {
    if !p.IsReference() {
      ReplaceItemsIsInstance(p.items, refs);
    }
  }

  lemma {:induction false} ReplaceItemsIsInstance(items: seq<Item>, refs: Refs)
    requires LastOnlyItems(items)
    ensures ReplaceItems(items, refs) == ItemInstances(items, refs)
  {
    if items == [] {
    } else {
      ReplaceItemIsInstance(items[0], refs);
      ReplaceItemsIsInstance(items[1..], refs);
    }
  }

  lemma {:induction false} ReplaceItemIsInstance(item: Item, refs: Refs)
    requires LastOnlyItem(item)
    ensures ReplaceItem(item, refs) == ItemInstance(item, refs)
  {
    if item.Args? {
      ReplaceStatementsIsInstance(item.args.items, refs);
    }
  }

  lemma {:induction false} ReplaceStatementsIsInstance(statements: seq<Statement>, refs: Refs)
    requires LastOnlyStatements(statements)
    ensures ReplaceStatements(statements, refs) == StatementInstances(statements, refs)
  {
    if statements == [] {
    } else {
      ReplaceLastIsInstance(statements[0].items, refs);
      ReplaceStatementsIsInstance(statements[1..], refs);
    }
  }

  lemma {:induction false} ReplaceLastIsInstance(expressions: seq<Expression>, refs: Refs)
    requires LastOnlyExpressions(expressions)
    ensures ReplaceLast(expressions, refs) == ExpressionInstances(expressions, refs)
  {
    if |expressions| == 1 {
      ReplaceIsInstance(expressions[0], refs);
    } else if expressions != [] {
      RefFreeInstance(expressions[0], refs);
      ReplaceLastIsInstance(expressions[1..], refs);
    }
  }

  lemma {:induction false} RefFreeLastOnlyItems(items: seq<Item>)
    requires RefsOfItems(items) == []
    ensures LastOnlyItems(items)
  {
    if items == [] {
    } else {
      RefFreeLastOnlyItem(items[0]);
      RefFreeLastOnlyItems(items[1..]);
    }
  }

  lemma {:induction false} RefFreeLastOnlyItem(item: Item)
    requires RefsOfItem(item) == []
    ensures LastOnlyItem(item)
  {
    if item.Args? {
      RefFreeLastOnlyStatements(item.args.items);
    }
  }

  lemma {:induction false} RefFreeLastOnlyStatements(statements: seq<Statement>)
    requires RefsOfStatements(statements) == []
    ensures LastOnlyStatements(statements)
  {
    if statements == [] {
    } else {
      RefFreeLastOnlyExpressions(statements[0].items);
      RefFreeLastOnlyStatements(statements[1..]);
    }
  }

  lemma {:induction false} RefFreeLastOnlyExpressions(expressions: seq<Expression>)
    requires RefsOfExpressions(expressions) == []
    ensures LastOnlyExpressions(expressions)
  {
    if expressions == [] {
    } else {
      RefFreeLastOnlyItems(expressions[0].items);
      RefFreeLastOnlyExpressions(expressions[1..]);
    }
  }

  lemma RefFreeInstance(e: Expression, refs: Refs)
    requires RefFree(e)
    ensures Instance(e, refs) == e
  {
    RefFreeMatch(e, e, refs, true);
    EmptyBare(e);
    MatchSound(e, e, refs, true);
  }

  // A term without references is bare, whatever was seen before.

  lemma {:induction false} EmptyBare(e: Expression)
    requires RefFree(e)
    ensures forall seen :: Bare(e, seen)
  {
    RefFreeIsNoReference(e);
    EmptyBareItems(e.items);
  }

  lemma {:induction false} EmptyBareItems(items: seq<Item>)
    requires RefsOfItems(items) == []
    ensures forall seen :: BareItems(items, seen)
  {
    if items == [] {
    } else {
      EmptyBareItem(items[0]);
      EmptyBareItems(items[1..]);
    }
  }

  lemma {:induction false} EmptyBareItem(item: Item)
    requires RefsOfItem(item) == []
    ensures forall seen :: BareItem(item, seen)
  {
    if item.Args? {
      EmptyBareStatements(item.args.items);
    }
  }

  lemma {:induction false} EmptyBareStatements(statements: seq<Statement>)
    requires RefsOfStatements(statements) == []
    ensures forall seen :: BareStatements(statements, seen)
  {
    if statements == [] {
    } else {
      EmptyBareExpressions(statements[0].items);
      EmptyBareStatements(statements[1..]);
    }
  }

  lemma {:induction false} EmptyBareExpressions(expressions: seq<Expression>)
    requires RefsOfExpressions(expressions) == []
    ensures forall seen :: BareExpressions(expressions, seen)
  {
    if expressions == [] {
    } else {
      EmptyBare(expressions[0]);
      EmptyBareExpressions(expressions[1..]);
    }
  }

  // ---------------------------------------------------------------------------
  // Matching and substitution are inverse exactly for the invertible patterns

  /** For a pattern that matches a subject, substituting the bindings rebuilds the subject if
      and only if the pattern is invertible. */
  lemma RebuildsExactlyWhenInvertible(p: Expression, s: Expression)
    requires RefFree(s) && Matches(p, s).Some?
    ensures Replace(p, Matches(p, s).value, s.cvrs) == s <==> Invertible(p)
  {
    var none: Refs := map[];
    assert none.Keys == {};
    var r := Match(p, s, none, false);
    MatchBinds(p, s, none, false);
    if Invertible(p) {
      MatchSound(p, s, none, false);
      ReplaceIsInstance(p, r.refs);
    }
    if Replace(p, r.refs, s.cvrs) == s {
      if p.IsReference() {
        assert |s.cvrs + p.cvrs| == |s.cvrs|;
      } else {
        RebuiltItems(p.items, s.items, none, r.refs);
      }
    }
  }

  lemma {:induction false} RebuiltExpression(p: Expression, s: Expression, refs: Refs, sigma: Refs)
    requires RefFree(s)
    requires var r := Match(p, s, refs, true); r.ok && Extends(r.refs, sigma)
    requires Replace(p, sigma, p.cvrs) == s
    ensures Bare(p, refs.Keys) && LastOnly(p)
  {
    if p.IsReference() {
      if p.items[0].id !in refs {
        assert |s.cvrs + p.cvrs| == |s.cvrs|;
      }
    } else {
      RebuiltItems(p.items, s.items, refs, sigma);
    }
  }

  lemma {:induction false} RebuiltItems(ps: seq<Item>, ss: seq<Item>, refs: Refs, sigma: Refs)
    requires |ps| == |ss| && RefsOfItems(ss) == []
    requires var r := MatchItems(ps, ss, refs); r.ok && Extends(r.refs, sigma)
    requires ReplaceItems(ps, sigma) == ss
    ensures BareItems(ps, refs.Keys) && LastOnlyItems(ps)
  {
    if ps == [] {
    } else {
      var head := MatchItem(ps[0], ss[0], refs);
      assert ReplaceItem(ps[0], sigma) == ss[0] && ReplaceItems(ps[1..], sigma) == ss[1..];
      MatchItemBinds(ps[0], ss[0], refs);
      MatchItemsBinds(ps[1..], ss[1..], head.refs);
      RebuiltItem(ps[0], ss[0], refs, sigma);
      RebuiltItems(ps[1..], ss[1..], head.refs, sigma);
    }
  }

  lemma {:induction false} RebuiltItem(p: Item, s: Item, refs: Refs, sigma: Refs)
    requires RefsOfItem(s) == []
    requires var r := MatchItem(p, s, refs); r.ok && Extends(r.refs, sigma)
    requires ReplaceItem(p, sigma) == s
    ensures BareItem(p, refs.Keys) && LastOnlyItem(p)
  {
    if p.Args? {
      RebuiltStatements(p.args.items, s.args.items, refs, sigma);
    }
  }

  lemma {:induction false} RebuiltStatements(ps: seq<Statement>, ss: seq<Statement>, refs: Refs, sigma: Refs)
    requires |ps| == |ss| && RefsOfStatements(ss) == []
    requires var r := MatchStatements(ps, ss, refs); r.ok && Extends(r.refs, sigma)
    requires ReplaceStatements(ps, sigma) == ss
    ensures BareStatements(ps, refs.Keys) && LastOnlyStatements(ps)
  {
    if ps == [] {
    } else {
      var head := MatchExpressions(ps[0].items, ss[0].items, refs);
      assert ReplaceLast(ps[0].items, sigma) == ss[0].items && ReplaceStatements(ps[1..], sigma) == ss[1..];
      MatchExpressionsBinds(ps[0].items, ss[0].items, refs);
      MatchStatementsBinds(ps[1..], ss[1..], head.refs);
      RebuiltExpressions(ps[0].items, ss[0].items, refs, sigma);
      RebuiltStatements(ps[1..], ss[1..], head.refs, sigma);
    }
  }

  lemma {:induction false} RebuiltExpressions(ps: seq<Expression>, ss: seq<Expression>, refs: Refs, sigma: Refs)
    requires |ps| == |ss| && RefsOfExpressions(ss) == []
    requires var r := MatchExpressions(ps, ss, refs); r.ok && Extends(r.refs, sigma)
    requires ReplaceLast(ps, sigma) == ss
    ensures BareExpressions(ps, refs.Keys) && LastOnlyExpressions(ps)
  {
    if ps == [] {
    } else {
      var head := Match(ps[0], ss[0], refs, true);
      MatchBinds(ps[0], ss[0], refs, true);
      MatchExpressionsBinds(ps[1..], ss[1..], head.refs);
      if |ps| == 1 {
        RebuiltExpression(ps[0], ss[0], refs, sigma);
      } else {
        assert ps[0] == ss[0] && ReplaceLast(ps[1..], sigma) == ss[1..];
        EmptyBare(ps[0]);
        RebuiltExpressions(ps[1..], ss[1..], head.refs, sigma);
      }
    }
  }
}
