/**
 Rewriting with replacement rules: the measure that makes the loop of `simplified` terminate,
 the rewrite relation it stays inside, and the normal forms it reaches.
 */
module Rewriting {
  import opened Wrappers
  import opened Terms
  import opened Matching
  import opened Lookups
  import opened Matcher
  import Sequences

  type Rules = seq<(Expression, Expression)>

  // ---------------------------------------------------------------------------
  // The weight of a term, counting a reference that stands for an expression as nothing

  function Weight(e: Expression): nat {
    if e.IsReference() then 0 else 1 + WeightOfItems(e.items)
  }

  function WeightOfItems(items: seq<Item>): nat {
    if items == [] then 0 else WeightOfItem(items[0]) + WeightOfItems(items[1..])
  }

  function WeightOfItem(item: Item): nat {
    match item
    case Text(text) => 1 + |text|
    case Reference(_) => 1
    case Args(args) => 1 + WeightOfStatements(args.items)
  }

  function WeightOfStatements(statements: seq<Statement>): nat {
    if statements == [] then 0
    else 1 + WeightOfExpressions(statements[0].items) + WeightOfStatements(statements[1..])
  }

  function WeightOfExpressions(expressions: seq<Expression>): nat {
    if expressions == [] then 0 else Weight(expressions[0]) + WeightOfExpressions(expressions[1..])
  }

  /** The weight that the bindings add, one summand per occurrence. */
  ghost function BoundWeight(ids: seq<string>, refs: Refs): nat {
    if ids == [] then 0
    else (if ids[0] in refs then Weight(refs[ids[0]]) else 0) + BoundWeight(ids[1..], refs)
  }

  lemma {:induction false} BoundWeightConcat(a: seq<string>, b: seq<string>, refs: Refs)
    ensures BoundWeight(a + b, refs) == BoundWeight(a, refs) + BoundWeight(b, refs)
  {
    if a == [] {
      assert a + b == b;
    } else {
      assert (a + b)[1..] == a[1..] + b;
      BoundWeightConcat(a[1..], b, refs);
    }
  }

  lemma BoundWeightWithout(b: seq<string>, k: nat, refs: Refs)
    requires k < |b|
    ensures BoundWeight(b, refs) == BoundWeight([b[k]], refs) + BoundWeight(Sequences.Without(b, k), refs)
  {
    assert b == b[..k] + ([b[k]] + b[k + 1..]);
    BoundWeightConcat(b[..k], [b[k]] + b[k + 1..], refs);
    BoundWeightConcat([b[k]], b[k + 1..], refs);
    BoundWeightConcat(b[..k], b[k + 1..], refs);
  }

  lemma WithoutIncludes(a: seq<string>, b: seq<string>, k: nat)
    requires a != [] && k < |b| && b[k] == a[0] && multiset(a) <= multiset(b)
    ensures multiset(a[1..]) <= multiset(Sequences.Without(b, k))
  {
    Sequences.TakenOut(a, 0);
    Sequences.TakenOut(b, k);
    assert Sequences.Without(a, 0) == a[1..];
    Included(multiset(a[1..]), multiset(Sequences.Without(b, k)), a[0]);
  }

  lemma Included(a: multiset<string>, b: multiset<string>, x: string)
    requires a + multiset{x} <= b + multiset{x}
    ensures a <= b
  {
    forall id
      ensures a[id] <= b[id]
    {
      assert (a + multiset{x})[id] <= (b + multiset{x})[id];
    }
  }

  lemma {:induction false} BoundWeightMonotone(a: seq<string>, b: seq<string>, refs: Refs)
    requires multiset(a) <= multiset(b)
    ensures BoundWeight(a, refs) <= BoundWeight(b, refs)
  {
    if a == [] {
    } else {
      assert a == [a[0]] + a[1..];
      assert a[0] in multiset(a);
      var k :| 0 <= k < |b| && b[k] == a[0];
      BoundWeightWithout(b, k, refs);
      BoundWeightConcat([a[0]], a[1..], refs);
      WithoutIncludes(a, b, k);
      BoundWeightMonotone(a[1..], Sequences.Without(b, k), refs);
    }
  }

  // ---------------------------------------------------------------------------
  // A matched subject weighs what the pattern weighs plus what its references were bound to

  lemma {:induction false} MatchedWeight(p: Expression, s: Expression, refs: Refs, important: bool, sigma: Refs)
    requires var r := Match(p, s, refs, important); r.ok && Extends(r.refs, sigma)
    ensures Weight(s) == Weight(p) + BoundWeight(RefsOfItems(p.items), sigma)
  {
    if p.IsReference() {
      var id := p.items[0].id;
      assert RefsOfItems(p.items) == [id] by { assert p.items[1..] == []; }
      assert BoundWeight([id], sigma) == Weight(sigma[id]) by { assert [id][1..] == []; }
    } else {
      NoReferenceMatched(p, s, refs, important);
      MatchedWeightOfItems(p.items, s.items, refs, sigma);
    }
  }

  lemma NoReferenceMatched(p: Expression, s: Expression, refs: Refs, important: bool)
    requires !p.IsReference() && Match(p, s, refs, important).ok
    ensures !s.IsReference()
  {
    assert p.items != [] ==> MatchItem(p.items[0], s.items[0], refs).ok;
  }

  lemma {:induction false} MatchedWeightOfItems(ps: seq<Item>, ss: seq<Item>, refs: Refs, sigma: Refs)
    requires |ps| == |ss|
    requires var r := MatchItems(ps, ss, refs); r.ok && Extends(r.refs, sigma)
    ensures WeightOfItems(ss) == WeightOfItems(ps) + BoundWeight(RefsOfItems(ps), sigma)
  {
    if ps == [] {
    } else {
      var head := MatchItem(ps[0], ss[0], refs);
      MatchItemsBinds(ps[1..], ss[1..], head.refs);
      MatchedWeightOfItem(ps[0], ss[0], refs, sigma);
      MatchedWeightOfItems(ps[1..], ss[1..], head.refs, sigma);
      BoundWeightConcat(RefsOfItem(ps[0]), RefsOfItems(ps[1..]), sigma);
    }
  }

  lemma {:induction false} MatchedWeightOfItem(p: Item, s: Item, refs: Refs, sigma: Refs)
    requires var r := MatchItem(p, s, refs); r.ok && Extends(r.refs, sigma)
    ensures WeightOfItem(s) == WeightOfItem(p) + BoundWeight(RefsOfItem(p), sigma)
  {
    if p.Args? {
      MatchedWeightOfStatements(p.args.items, s.args.items, refs, sigma);
    }
  }

  lemma {:induction false} MatchedWeightOfStatements(ps: seq<Statement>, ss: seq<Statement>, refs: Refs, sigma: Refs)
    requires |ps| == |ss|
    requires var r := MatchStatements(ps, ss, refs); r.ok && Extends(r.refs, sigma)
    ensures WeightOfStatements(ss) == WeightOfStatements(ps) + BoundWeight(RefsOfStatements(ps), sigma)
  {
    if ps == [] {
    } else {
      var head := MatchStatement(ps[0], ss[0], refs);
      MatchStatementsBinds(ps[1..], ss[1..], head.refs);
      MatchedWeightOfExpressions(ps[0].items, ss[0].items, refs, sigma);
      MatchedWeightOfStatements(ps[1..], ss[1..], head.refs, sigma);
      BoundWeightConcat(RefsOfExpressions(ps[0].items), RefsOfStatements(ps[1..]), sigma);
    }
  }

  lemma {:induction false} MatchedWeightOfExpressions(
    ps: seq<Expression>, ss: seq<Expression>, refs: Refs, sigma: Refs)
    requires |ps| == |ss|
    requires var r := MatchExpressions(ps, ss, refs); r.ok && Extends(r.refs, sigma)
    ensures WeightOfExpressions(ss) == WeightOfExpressions(ps) + BoundWeight(RefsOfExpressions(ps), sigma)
  {
    if ps == [] {
    } else {
      var head := Match(ps[0], ss[0], refs, true);
      MatchExpressionsBinds(ps[1..], ss[1..], head.refs);
      MatchedWeight(ps[0], ss[0], refs, true, sigma);
      MatchedWeightOfExpressions(ps[1..], ss[1..], head.refs, sigma);
      BoundWeightConcat(RefsOfItems(ps[0].items), RefsOfExpressions(ps[1..]), sigma);
    }
  }

  // ---------------------------------------------------------------------------
  // Replacements whose references can all be filled in

  /** References are sole items and stay in the last expression of a statement. */
  predicate Placed(r: Expression) {
    r.IsReference() || PlacedItems(r.items)
  }

  predicate PlacedItems(items: seq<Item>) {
    items == [] || (PlacedItem(items[0]) && PlacedItems(items[1..]))
  }

  predicate PlacedItem(item: Item) {
    !item.Reference? && (item.Args? ==> PlacedStatements(item.args.items))
  }

  predicate PlacedStatements(statements: seq<Statement>) {
    statements == [] || (PlacedExpressions(statements[0].items) && PlacedStatements(statements[1..]))
  }

  predicate PlacedExpressions(expressions: seq<Expression>) {
    expressions == []
    || (if |expressions| == 1 then Placed(expressions[0])
        else RefFree(expressions[0]) && PlacedExpressions(expressions[1..]))
  }

  lemma {:induction false} RefFreePlacedItems(items: seq<Item>)
    requires RefsOfItems(items) == []
    ensures PlacedItems(items)
  {
    if items == [] {
    } else {
      RefFreePlacedItem(items[0]);
      RefFreePlacedItems(items[1..]);
    }
  }

  lemma {:induction false} RefFreePlacedItem(item: Item)
    requires RefsOfItem(item) == []
    ensures PlacedItem(item)
  {
    if item.Args? {
      RefFreePlacedStatements(item.args.items);
    }
  }

  lemma {:induction false} RefFreePlacedStatements(statements: seq<Statement>)
    requires RefsOfStatements(statements) == []
    ensures PlacedStatements(statements)
  {
    if statements == [] {
    } else {
      RefFreePlacedExpressions(statements[0].items);
      RefFreePlacedStatements(statements[1..]);
    }
  }

  lemma {:induction false} RefFreePlacedExpressions(expressions: seq<Expression>)
    requires RefsOfExpressions(expressions) == []
    ensures PlacedExpressions(expressions)
  {
    if expressions == [] {
    } else {
      RefFreePlacedItems(expressions[0].items);
      RefFreePlacedExpressions(expressions[1..]);
    }
  }

  /** Filling in a placed replacement leaves no reference, and when all its references are bound it
      adds exactly the bound weights. */
  lemma {:induction false} ReplacedTerm(r: Expression, refs: Refs, cvrs: Cvrs)
    requires Placed(r) && Ground(refs)
    ensures RefFree(Replace(r, refs, cvrs))
    ensures Ids(RefsOfItems(r.items)) <= refs.Keys ==>
              Weight(Replace(r, refs, cvrs)) == Weight(r) + BoundWeight(RefsOfItems(r.items), refs)
  {
    if r.IsReference() {
      var id := r.items[0].id;
      assert RefsOfItems(r.items) == [id] by { assert r.items[1..] == []; }
      if id in refs {
        assert BoundWeight([id], refs) == Weight(refs[id]) by { assert [id][1..] == []; }
      } else {
        assert id in Ids([id]);
        assert UNBOUND[1..] == [];
      }
    } else {
      ReplacedItems(r.items, refs);
      RefFreeIsNoReference(Replace(r, refs, cvrs));
    }
  }

  lemma {:induction false} ReplacedItems(items: seq<Item>, refs: Refs)
    requires PlacedItems(items) && Ground(refs)
    ensures RefsOfItems(ReplaceItems(items, refs)) == []
    ensures Ids(RefsOfItems(items)) <= refs.Keys ==>
              WeightOfItems(ReplaceItems(items, refs)) == WeightOfItems(items) + BoundWeight(RefsOfItems(items), refs)
  {
    if items == [] {
    } else {
      ReplacedItem(items[0], refs);
      ReplacedItems(items[1..], refs);
      BoundWeightConcat(RefsOfItem(items[0]), RefsOfItems(items[1..]), refs);
      IdsOfParts(RefsOfItem(items[0]), RefsOfItems(items[1..]));
      assert ReplaceItems(items, refs)[1..] == ReplaceItems(items[1..], refs);
    }
  }

  lemma IdsOfParts(a: seq<string>, b: seq<string>)
    ensures Ids(a + b) == Ids(a) + Ids(b)
  {
  }

  lemma {:induction false} ReplacedItem(item: Item, refs: Refs)
    requires PlacedItem(item) && Ground(refs)
    ensures RefsOfItem(ReplaceItem(item, refs)) == []
    ensures Ids(RefsOfItem(item)) <= refs.Keys ==>
              WeightOfItem(ReplaceItem(item, refs)) == WeightOfItem(item) + BoundWeight(RefsOfItem(item), refs)
  {
    if item.Args? {
      ReplacedStatements(item.args.items, refs);
    }
  }

  lemma {:induction false} ReplacedStatements(statements: seq<Statement>, refs: Refs)
    requires PlacedStatements(statements) && Ground(refs)
    ensures RefsOfStatements(ReplaceStatements(statements, refs)) == []
    ensures Ids(RefsOfStatements(statements)) <= refs.Keys ==>
              WeightOfStatements(ReplaceStatements(statements, refs))
              == WeightOfStatements(statements) + BoundWeight(RefsOfStatements(statements), refs)
  {
    if statements == [] {
    } else {
      ReplacedExpressions(statements[0].items, refs);
      ReplacedStatements(statements[1..], refs);
      BoundWeightConcat(RefsOfExpressions(statements[0].items), RefsOfStatements(statements[1..]), refs);
      IdsOfParts(RefsOfExpressions(statements[0].items), RefsOfStatements(statements[1..]));
      assert ReplaceStatements(statements, refs)[1..] == ReplaceStatements(statements[1..], refs);
    }
  }

  lemma {:induction false} ReplacedExpressions(expressions: seq<Expression>, refs: Refs)
    requires PlacedExpressions(expressions) && Ground(refs)
    ensures RefsOfExpressions(ReplaceLast(expressions, refs)) == []
    ensures Ids(RefsOfExpressions(expressions)) <= refs.Keys ==>
              WeightOfExpressions(ReplaceLast(expressions, refs))
              == WeightOfExpressions(expressions) + BoundWeight(RefsOfExpressions(expressions), refs)
  {
    if |expressions| == 1 {
      ReplacedTerm(expressions[0], refs, expressions[0].cvrs);
      assert expressions[1..] == [];
      assert ReplaceLast(expressions, refs)[1..] == [];
      BoundWeightConcat(RefsOfItems(expressions[0].items), [], refs);
    } else if expressions != [] {
      ReplacedExpressions(expressions[1..], refs);
      BoundWeightConcat(RefsOfItems(expressions[0].items), RefsOfExpressions(expressions[1..]), refs);
      IdsOfParts(RefsOfItems(expressions[0].items), RefsOfExpressions(expressions[1..]));
      assert ReplaceLast(expressions, refs)[1..] == ReplaceLast(expressions[1..], refs);
    }
  }

  // ---------------------------------------------------------------------------
  // Decreasing rules

  /** No reference occurs more often in the replacement than in the pattern, and without its
      references the replacement weighs less. */
  predicate Decreasing(rule: (Expression, Expression)) {
    && Placed(rule.1)
    && Weight(rule.1) < Weight(rule.0)
    && multiset(RefsOfItems(rule.1.items)) <= multiset(RefsOfItems(rule.0.items))
  }

  predicate AllDecreasing(rules: Rules) {
    forall i | 0 <= i < |rules| :: Decreasing(rules[i])
  }

  /** The least that keeps a subject free of references. */
  predicate PlacedRules(rules: Rules) {
    forall i | 0 <= i < |rules| :: Placed(rules[i].1)
  }

  lemma RewriteKeepsRefFree(rule: (Expression, Expression), s: Expression)
    requires Placed(rule.1) && RefFree(s) && Matches(rule.0, s).Some?
    ensures RefFree(Replace(rule.1, Matches(rule.0, s).value, s.cvrs))
  {
    MatchGround(rule.0, s, map[], false);
    ReplacedTerm(rule.1, Matches(rule.0, s).value, s.cvrs);
  }

  /** One application of a decreasing rule keeps the term free of references and makes it lighter. */
  lemma RewriteDecreases(rule: (Expression, Expression), s: Expression)
    requires Decreasing(rule) && RefFree(s) && Matches(rule.0, s).Some?
    ensures var next := Replace(rule.1, Matches(rule.0, s).value, s.cvrs);
            RefFree(next) && Weight(next) < Weight(s)
  {
    var none: Refs := map[];
    assert none.Keys == {};
    var refs := Matches(rule.0, s).value;
    MatchBinds(rule.0, s, none, false);
    MatchGround(rule.0, s, none, false);
    assert forall id | id in RefsOfItems(rule.1.items) ::
        id in multiset(RefsOfItems(rule.1.items)) && id in multiset(RefsOfItems(rule.0.items));
    ReplacedTerm(rule.1, refs, s.cvrs);
    MatchedWeight(rule.0, s, none, false, refs);
    BoundWeightMonotone(RefsOfItems(rule.1.items), RefsOfItems(rule.0.items), refs);
  }

  // ---------------------------------------------------------------------------
  // What `simplified` computes

  /** The result of the first rule that matches. */
  function FirstRewrite(rules: Rules, e: Expression): Option<Expression> {
    if rules == [] then None
    else
      match Matches(rules[0].0, e)
      case Some(refs) => Some(Replace(rules[0].1, refs, e.cvrs))
      case None => FirstRewrite(rules[1..], e)
  }

  ghost predicate RootNormal(rules: Rules, e: Expression) {
    forall i | 0 <= i < |rules| :: Matches(rules[i].0, e).None?
  }

  ghost predicate RewritesAtRoot(rules: Rules, a: Expression, b: Expression) {
    exists i | 0 <= i < |rules| ::
      Matches(rules[i].0, a).Some? && b == Replace(rules[i].1, Matches(rules[i].0, a).value, a.cvrs)
  }

  lemma {:induction false} FirstRewriteMeaning(rules: Rules, e: Expression)
    ensures FirstRewrite(rules, e).None? <==> RootNormal(rules, e)
    ensures FirstRewrite(rules, e).Some? ==> RewritesAtRoot(rules, e, FirstRewrite(rules, e).value)
    ensures FirstRewrite(rules, e).Some? && PlacedRules(rules) && RefFree(e) ==> RefFree(FirstRewrite(rules, e).value)
  {
    if rules == [] {
    } else if Matches(rules[0].0, e).None? {
      FirstRewriteMeaning(rules[1..], e);
      assert forall i | 0 <= i < |rules[1..]| :: rules[1..][i] == rules[i + 1];
      if FirstRewrite(rules[1..], e).Some? {
        var b := FirstRewrite(rules[1..], e).value;
        var i :| 0 <= i < |rules[1..]| && Matches(rules[1..][i].0, e).Some?
          && b == Replace(rules[1..][i].1, Matches(rules[1..][i].0, e).value, e.cvrs);
        assert rules[i + 1] == rules[1..][i];
      } else {
        forall i | 0 <= i < |rules|
          ensures Matches(rules[i].0, e).None?
        {
          if i > 0 {
            assert rules[i] == rules[1..][i - 1];
          }
        }
      }
    } else if PlacedRules(rules) && RefFree(e) {
      RewriteKeepsRefFree(rules[0], e);
    }
  }

  /** What `n` turns of the `while (modified)` loop make of an expression. */
  ghost function Turns(rules: Rules, e: Expression, n: nat): Expression
    decreases n
  {
    if n == 0 then e
    else
      match FirstRewrite(rules, e)
      case None => e
      case Some(next) => Turns(rules, next, n - 1)
  }

  /** No rule matches after `n` turns. */
  ghost predicate EndsAfter(rules: Rules, e: Expression, n: nat) {
    FirstRewrite(rules, Turns(rules, e, n)).None?
  }

  ghost predicate RootEnds(rules: Rules, e: Expression) {
    exists n: nat :: EndsAfter(rules, e, n)
  }

  lemma {:induction false} TurnsAgree(rules: Rules, e: Expression, m: nat, n: nat)
    requires EndsAfter(rules, e, m) && EndsAfter(rules, e, n)
    ensures Turns(rules, e, m) == Turns(rules, e, n)
    decreases m
  {
    match FirstRewrite(rules, e)
    case None =>
    case Some(next) => TurnsAgree(rules, next, m - 1, n - 1);
  }

  /** Where the loop ends, if it does. */
  ghost function NormalizeRoot(rules: Rules, e: Expression): Expression {
    if RootEnds(rules, e) then
      var n: nat :| EndsAfter(rules, e, n);
      Turns(rules, e, n)
    else e
  }

  lemma NormalizeRootIs(rules: Rules, e: Expression, n: nat)
    requires EndsAfter(rules, e, n)
    ensures RootEnds(rules, e) && NormalizeRoot(rules, e) == Turns(rules, e, n)
  {
    var m: nat :| EndsAfter(rules, e, m) && NormalizeRoot(rules, e) == Turns(rules, e, m);
    TurnsAgree(rules, e, m, n);
  }

  /** One turn of the loop. */
  lemma NormalizeRootTurn(rules: Rules, e: Expression)
    ensures FirstRewrite(rules, e).None? ==> RootEnds(rules, e) && NormalizeRoot(rules, e) == e
    ensures FirstRewrite(rules, e).Some? ==>
              var next := FirstRewrite(rules, e).value;
              (RootEnds(rules, e) <==> RootEnds(rules, next))
              && (RootEnds(rules, e) ==> NormalizeRoot(rules, e) == NormalizeRoot(rules, next))
  {
    match FirstRewrite(rules, e)
    case None =>
      assert EndsAfter(rules, e, 0);
      NormalizeRootIs(rules, e, 0);
    case Some(next) =>
      if RootEnds(rules, e) {
        var n: nat :| EndsAfter(rules, e, n);
        assert EndsAfter(rules, next, n - 1);
        NormalizeRootIs(rules, e, n);
        NormalizeRootIs(rules, next, n - 1);
      }
      if RootEnds(rules, next) {
        var n: nat :| EndsAfter(rules, next, n);
        assert EndsAfter(rules, e, n + 1);
      }
  }

  lemma {:induction false} TurnsRefFree(rules: Rules, e: Expression, n: nat)
    requires PlacedRules(rules) && RefFree(e)
    ensures RefFree(Turns(rules, e, n))
    decreases n
  {
    FirstRewriteMeaning(rules, e);
    if n == 0 || FirstRewrite(rules, e).None? {
    } else {
      TurnsRefFree(rules, FirstRewrite(rules, e).value, n - 1);
    }
  }

  lemma NormalizedRoot(rules: Rules, e: Expression)
    ensures RootEnds(rules, e) ==> RootNormal(rules, NormalizeRoot(rules, e))
    ensures PlacedRules(rules) && RefFree(e) ==> RefFree(NormalizeRoot(rules, e))
  {
    if RootEnds(rules, e) {
      var n: nat :| EndsAfter(rules, e, n);
      NormalizeRootIs(rules, e, n);
      FirstRewriteMeaning(rules, NormalizeRoot(rules, e));
      if PlacedRules(rules) && RefFree(e) {
        TurnsRefFree(rules, e, n);
      }
    }
  }

  /** Arguments first, then the root. */
  ghost function Simplified(rules: Rules, e: Expression): Expression
    decreases e
  {
    NormalizeRoot(rules, Expression(SimplifiedItems(rules, e.items), e.cvrs))
  }

  ghost function SimplifiedItems(rules: Rules, items: seq<Item>): (r: seq<Item>)
    ensures |r| == |items|
    decreases items
  {
    if items == [] then [] else [SimplifiedItem(rules, items[0])] + SimplifiedItems(rules, items[1..])
  }

  ghost function SimplifiedItem(rules: Rules, item: Item): Item
    decreases item
  {
    match item
    case Args(args) => Args(ArgumentList(args.start, args.stop, SimplifiedStatements(rules, args.items)))
    case _ => item
  }

  ghost function SimplifiedStatements(rules: Rules, statements: seq<Statement>): (r: seq<Statement>)
    ensures |r| == |statements|
    decreases statements
  {
    if statements == [] then []
    else [Statement(SimplifiedExpressions(rules, statements[0].items))] + SimplifiedStatements(rules, statements[1..])
  }

  ghost function SimplifiedExpressions(rules: Rules, expressions: seq<Expression>): (r: seq<Expression>)
    ensures |r| == |expressions|
    decreases expressions
  {
    if expressions == [] then []
    else [Simplified(rules, expressions[0])] + SimplifiedExpressions(rules, expressions[1..])
  }

  /** Each loop that `simplified` runs, inside out, ends. */
  ghost predicate Ends(rules: Rules, e: Expression)
    decreases e
  {
    EndsItems(rules, e.items) && RootEnds(rules, Expression(SimplifiedItems(rules, e.items), e.cvrs))
  }

  ghost predicate EndsItems(rules: Rules, items: seq<Item>)
    decreases items
  {
    items == [] || (EndsItem(rules, items[0]) && EndsItems(rules, items[1..]))
  }

  ghost predicate EndsItem(rules: Rules, item: Item)
    decreases item
  {
    item.Args? ==> EndsStatements(rules, item.args.items)
  }

  ghost predicate EndsStatements(rules: Rules, statements: seq<Statement>)
    decreases statements
  {
    statements == [] || (EndsExpressions(rules, statements[0].items) && EndsStatements(rules, statements[1..]))
  }

  ghost predicate EndsExpressions(rules: Rules, expressions: seq<Expression>)
    decreases expressions
  {
    expressions == [] || (Ends(rules, expressions[0]) && EndsExpressions(rules, expressions[1..]))
  }

  lemma {:induction false} SimplifiedRefFree(rules: Rules, e: Expression)
    requires PlacedRules(rules) && RefFree(e)
    ensures RefFree(Simplified(rules, e))
    decreases e
  {
    SimplifiedItemsRefFree(rules, e.items);
    NormalizedRoot(rules, Expression(SimplifiedItems(rules, e.items), e.cvrs));
  }

  lemma {:induction false} SimplifiedItemsRefFree(rules: Rules, items: seq<Item>)
    requires PlacedRules(rules) && RefsOfItems(items) == []
    ensures RefsOfItems(SimplifiedItems(rules, items)) == []
    decreases items
  {
    if items == [] {
    } else {
      SimplifiedItemRefFree(rules, items[0]);
      SimplifiedItemsRefFree(rules, items[1..]);
      assert SimplifiedItems(rules, items)[1..] == SimplifiedItems(rules, items[1..]);
    }
  }

  lemma {:induction false} SimplifiedItemRefFree(rules: Rules, item: Item)
    requires PlacedRules(rules) && RefsOfItem(item) == []
    ensures RefsOfItem(SimplifiedItem(rules, item)) == []
    decreases item
  {
    if item.Args? {
      SimplifiedStatementsRefFree(rules, item.args.items);
    }
  }

  lemma {:induction false} SimplifiedStatementsRefFree(rules: Rules, statements: seq<Statement>)
    requires PlacedRules(rules) && RefsOfStatements(statements) == []
    ensures RefsOfStatements(SimplifiedStatements(rules, statements)) == []
    decreases statements
  {
    if statements == [] {
    } else {
      SimplifiedExpressionsRefFree(rules, statements[0].items);
      SimplifiedStatementsRefFree(rules, statements[1..]);
      assert SimplifiedStatements(rules, statements)[1..] == SimplifiedStatements(rules, statements[1..]);
    }
  }

  lemma {:induction false} SimplifiedExpressionsRefFree(rules: Rules, expressions: seq<Expression>)
    requires PlacedRules(rules) && RefsOfExpressions(expressions) == []
    ensures RefsOfExpressions(SimplifiedExpressions(rules, expressions)) == []
    decreases expressions
  {
    if expressions == [] {
    } else {
      SimplifiedRefFree(rules, expressions[0]);
      SimplifiedExpressionsRefFree(rules, expressions[1..]);
      assert SimplifiedExpressions(rules, expressions)[1..] == SimplifiedExpressions(rules, expressions[1..]);
    }
  }

  // ---------------------------------------------------------------------------
  // The loops of `simplified`

  lemma {:induction false} SimplifiedItemsAt(rules: Rules, items: seq<Item>, k: nat)
    requires k < |items|
    ensures RefsOfItems(items) == [] ==> RefsOfItem(items[k]) == []
    ensures EndsItems(rules, items) ==> EndsItem(rules, items[k])
    ensures SimplifiedItems(rules, items)[k] == SimplifiedItem(rules, items[k])
  {
    if k == 0 {
    } else {
      SimplifiedItemsAt(rules, items[1..], k - 1);
    }
  }

  lemma {:induction false} SimplifiedStatementsAt(rules: Rules, statements: seq<Statement>, k: nat)
    requires k < |statements|
    ensures EndsStatements(rules, statements) ==> EndsExpressions(rules, statements[k].items)
    ensures RefsOfStatements(statements) == [] ==> RefsOfExpressions(statements[k].items) == []
    ensures SimplifiedStatements(rules, statements)[k] == Statement(SimplifiedExpressions(rules, statements[k].items))
  {
    if k == 0 {
    } else {
      SimplifiedStatementsAt(rules, statements[1..], k - 1);
    }
  }

  lemma {:induction false} SimplifiedExpressionsAt(rules: Rules, expressions: seq<Expression>, k: nat)
    requires k < |expressions|
    ensures EndsExpressions(rules, expressions) ==> Ends(rules, expressions[k])
    ensures RefsOfExpressions(expressions) == [] ==> RefFree(expressions[k])
    ensures SimplifiedExpressions(rules, expressions)[k] == Simplified(rules, expressions[k])
  {
    if k == 0 {
    } else {
      SimplifiedExpressionsAt(rules, expressions[1..], k - 1);
    }
  }

  /** The loop over the rules: the first that matches is applied. */
  method ApplyFirst(rules: Rules, e: Expression) returns (modified: bool, result: Expression)
    requires RefFree(e)
    ensures modified <==> FirstRewrite(rules, e).Some?
    ensures result == if modified then FirstRewrite(rules, e).value else e
  {
    assert rules[0..] == rules;
    for i := 0 to |rules|
      invariant FirstRewrite(rules[i..], e) == FirstRewrite(rules, e)
    {
      var (matcher, replacement) := rules[i];
      assert rules[i..][1..] == rules[i + 1..];
      RefFreeEnds(matcher, e);
      var refs := MatchSubject(matcher, e);
      if refs.Some? {
        return true, Replace(replacement, refs.value, e.cvrs);
      }
    }
    return false, e;
  }

  method SimplifyRoot(rules: Rules, e: Expression) returns (result: Expression)
    requires PlacedRules(rules) && RefFree(e) && RootEnds(rules, e)
    ensures result == NormalizeRoot(rules, e)
  {
    result := e;
    ghost var left: nat :| EndsAfter(rules, result, left);

    var modified := true;
    while modified
      invariant RefFree(result) && EndsAfter(rules, result, left)
      invariant NormalizeRoot(rules, result) == NormalizeRoot(rules, e)
      invariant !modified ==> FirstRewrite(rules, result).None?
      decreases left, modified
    {
      FirstRewriteMeaning(rules, result);
      NormalizeRootTurn(rules, result);
      modified, result := ApplyFirst(rules, result);
      if modified {
        left := left - 1;
      }
    }
    NormalizeRootTurn(rules, result);
  }

  method SimplifyExpression(rules: Rules, e: Expression) returns (result: Expression)
    requires PlacedRules(rules) && RefFree(e) && Ends(rules, e)
    ensures result == Simplified(rules, e)
    decreases e
  {
    result := e;
    ghost var expected := SimplifiedItems(rules, e.items);
    var k := 0;
    while k < |result.items|
      invariant 0 <= k <= |result.items| == |e.items| && result.cvrs == e.cvrs
      invariant forall j | 0 <= j < k :: result.items[j] == expected[j]
      invariant forall j | k <= j < |e.items| :: result.items[j] == e.items[j]
    {
      SimplifiedItemsAt(rules, e.items, k);
      if result.items[k].Args? {
        assert result.items[k].args < e;
        var args := SimplifyArguments(rules, result.items[k].args);
        result := result.(items := result.items[k := Args(args)]);
      }
      k := k + 1;
    }
    assert result == Expression(expected, e.cvrs);
    SimplifiedItemsRefFree(rules, e.items);
    result := SimplifyRoot(rules, result);
  }

  method SimplifyArguments(rules: Rules, args: ArgumentList) returns (result: ArgumentList)
    requires PlacedRules(rules) && RefsOfStatements(args.items) == [] && EndsStatements(rules, args.items)
    ensures result == ArgumentList(args.start, args.stop, SimplifiedStatements(rules, args.items))
    decreases args
  {
    result := args;
    ghost var expected := SimplifiedStatements(rules, args.items);
    var k := 0;
    while k < |result.items|
      invariant 0 <= k <= |result.items| == |args.items|
      invariant result.start == args.start && result.stop == args.stop
      invariant forall j | 0 <= j < k :: result.items[j] == expected[j]
      invariant forall j | k <= j < |args.items| :: result.items[j] == args.items[j]
    {
      SimplifiedStatementsAt(rules, args.items, k);
      var statement := SimplifyStatement(rules, result.items[k]);
      result := result.(items := result.items[k := statement]);
      k := k + 1;
    }
  }

  method SimplifyStatement(rules: Rules, statement: Statement) returns (result: Statement)
    requires PlacedRules(rules) && RefsOfExpressions(statement.items) == [] && EndsExpressions(rules, statement.items)
    ensures result == Statement(SimplifiedExpressions(rules, statement.items))
    decreases statement
  {
    result := statement;
    ghost var expected := SimplifiedExpressions(rules, statement.items);
    var k := 0;
    while k < |result.items|
      invariant 0 <= k <= |result.items| == |statement.items|
      invariant forall j | 0 <= j < k :: result.items[j] == expected[j]
      invariant forall j | k <= j < |statement.items| :: result.items[j] == statement.items[j]
    {
      SimplifiedExpressionsAt(rules, statement.items, k);
      var expression := SimplifyExpression(rules, result.items[k]);
      result := result.(items := result.items[k := expression]);
      k := k + 1;
    }
  }
}
