/**
 Rules whose replacements bring no redex below their root, exactly; with them one pass of
 `simplified` leaves nothing to rewrite, and without them it may.
 */
module ShallowRules {
  import opened Wrappers
  import opened Terms
  import opened Matching
  import opened Lookups
  import opened Rewriting
  import opened NormalForms
  import LoopEnds

  ghost predicate NormalBindings(rules: Rules, refs: Refs) {
    forall id | id in refs :: Normal(rules, refs[id])
  }

  /** A subject's outermost levels never decide whether it is normal. */
  lemma NormalWith(rules: Rules, e: Expression, cvrs: Cvrs)
    ensures Normal(rules, Expression(e.items, cvrs)) <==> Normal(rules, e)
  {
    forall i | 0 <= i < |rules|
      ensures Matches(rules[i].0, Expression(e.items, cvrs)).Some? <==> Matches(rules[i].0, e).Some?
    {
      LoopEnds.MatchesWith(rules[i].0, e, cvrs);
    }
  }

  lemma {:induction false} MatchBindsNormal(rules: Rules, p: Expression, s: Expression, refs: Refs, important: bool)
    requires NormalBindings(rules, refs) && NormalItems(rules, s.items) && (p.IsReference() ==> Normal(rules, s))
    ensures NormalBindings(rules, Match(p, s, refs, important).refs)
    decreases p
  {
    if !p.IsReference() && |p.items| == |s.items| {
      MatchItemsBindsNormal(rules, p.items, s.items, refs);
    }
  }

  lemma {:induction false} MatchItemsBindsNormal(rules: Rules, ps: seq<Item>, ss: seq<Item>, refs: Refs)
    requires |ps| == |ss| && NormalBindings(rules, refs) && NormalItems(rules, ss)
    ensures NormalBindings(rules, MatchItems(ps, ss, refs).refs)
    decreases ps
  {
    if ps == [] {
    } else {
      MatchItemBindsNormal(rules, ps[0], ss[0], refs);
      MatchItemsBindsNormal(rules, ps[1..], ss[1..], MatchItem(ps[0], ss[0], refs).refs);
    }
  }

  lemma {:induction false} MatchItemBindsNormal(rules: Rules, p: Item, s: Item, refs: Refs)
    requires NormalBindings(rules, refs) && NormalItem(rules, s)
    ensures NormalBindings(rules, MatchItem(p, s, refs).refs)
    decreases p
  {
    if p.Args? && s.Args? && |p.args.items| == |s.args.items| {
      MatchStatementsBindsNormal(rules, p.args.items, s.args.items, refs);
    }
  }

  lemma {:induction false} MatchStatementsBindsNormal(rules: Rules, ps: seq<Statement>, ss: seq<Statement>, refs: Refs)
    requires |ps| == |ss| && NormalBindings(rules, refs) && NormalStatements(rules, ss)
    ensures NormalBindings(rules, MatchStatements(ps, ss, refs).refs)
    decreases ps
  {
    if ps == [] {
    } else {
      if |ps[0].items| == |ss[0].items| {
        MatchExpressionsBindsNormal(rules, ps[0].items, ss[0].items, refs);
      }
      MatchStatementsBindsNormal(rules, ps[1..], ss[1..], MatchStatement(ps[0], ss[0], refs).refs);
    }
  }

  lemma {:induction false} MatchExpressionsBindsNormal(
    rules: Rules, ps: seq<Expression>, ss: seq<Expression>, refs: Refs)
    requires |ps| == |ss| && NormalBindings(rules, refs) && NormalExpressions(rules, ss)
    ensures NormalBindings(rules, MatchExpressions(ps, ss, refs).refs)
    decreases ps
  {
    if ps == [] {
    } else {
      MatchBindsNormal(rules, ps[0], ss[0], refs, true);
      MatchExpressionsBindsNormal(rules, ps[1..], ss[1..], Match(ps[0], ss[0], refs, true).refs);
    }
  }

  // ---------------------------------------------------------------------------
  // Shallow rules: however a replacement is filled in with normal terms, no expression strictly
  // inside it becomes one that a rule matches

  ghost predicate Filling(rules: Rules, ids: set<string>, refs: Refs) {
    refs.Keys == ids && Ground(refs) && NormalBindings(rules, refs)
  }

  ghost predicate Shallow(rules: Rules, ids: set<string>, r: Expression) {
    r.IsReference() || ShallowItems(rules, ids, r.items)
  }

  ghost predicate ShallowItems(rules: Rules, ids: set<string>, items: seq<Item>)
    decreases items
  {
    items == [] || (ShallowItem(rules, ids, items[0]) && ShallowItems(rules, ids, items[1..]))
  }

  ghost predicate ShallowItem(rules: Rules, ids: set<string>, item: Item)
    decreases item
  {
    item.Args? ==> ShallowStatements(rules, ids, item.args.items)
  }

  ghost predicate ShallowStatements(rules: Rules, ids: set<string>, statements: seq<Statement>)
    decreases statements
  {
    statements == []
    || (ShallowExpressions(rules, ids, statements[0].items) && ShallowStatements(rules, ids, statements[1..]))
  }

  ghost predicate ShallowExpressions(rules: Rules, ids: set<string>, expressions: seq<Expression>)
    decreases expressions
  {
    expressions == []
    || (ShallowInner(rules, ids, expressions[0]) && ShallowExpressions(rules, ids, expressions[1..]))
  }

  ghost predicate ShallowInner(rules: Rules, ids: set<string>, e: Expression)
    decreases e
  {
    RootNormalFilled(rules, ids, e) && (e.IsReference() || ShallowItems(rules, ids, e.items))
  }

  ghost predicate RootNormalFilled(rules: Rules, ids: set<string>, e: Expression) {
    forall refs | Filling(rules, ids, refs) :: RootNormal(rules, Replace(e, refs, e.cvrs))
  }

  ghost predicate AllShallow(rules: Rules) {
    forall i | 0 <= i < |rules| :: Shallow(rules, Ids(RefsOfItems(rules[i].0.items)), rules[i].1)
  }

  // Shallow replacements are exactly those that bring in no redex below their root.

  ghost predicate NormalFilled(rules: Rules, ids: set<string>, e: Expression) {
    forall refs | Filling(rules, ids, refs) :: Normal(rules, Replace(e, refs, e.cvrs))
  }

  ghost predicate NormalFilledItems(rules: Rules, ids: set<string>, items: seq<Item>) {
    forall refs | Filling(rules, ids, refs) :: NormalItems(rules, ReplaceItems(items, refs))
  }

  ghost predicate NormalFilledItem(rules: Rules, ids: set<string>, item: Item) {
    forall refs | Filling(rules, ids, refs) :: NormalItem(rules, ReplaceItem(item, refs))
  }

  ghost predicate NormalFilledStatements(rules: Rules, ids: set<string>, statements: seq<Statement>) {
    forall refs | Filling(rules, ids, refs) :: NormalStatements(rules, ReplaceStatements(statements, refs))
  }

  ghost predicate NormalFilledExpressions(rules: Rules, ids: set<string>, expressions: seq<Expression>) {
    forall refs | Filling(rules, ids, refs) :: NormalExpressions(rules, ReplaceLast(expressions, refs))
  }

  lemma {:induction false} ShallowItemsExactly(rules: Rules, ids: set<string>, items: seq<Item>)
    requires PlacedItems(items)
    ensures ShallowItems(rules, ids, items) <==> NormalFilledItems(rules, ids, items)
    decreases items
  {
    if items == [] {
    } else {
      ShallowItemExactly(rules, ids, items[0]);
      ShallowItemsExactly(rules, ids, items[1..]);
      forall refs | Filling(rules, ids, refs)
        ensures NormalItems(rules, ReplaceItems(items, refs))
                <==> NormalItem(rules, ReplaceItem(items[0], refs)) && NormalItems(rules, ReplaceItems(items[1..], refs))
      {
        assert ReplaceItems(items, refs)[1..] == ReplaceItems(items[1..], refs);
      }
    }
  }

  lemma {:induction false} ShallowItemExactly(rules: Rules, ids: set<string>, item: Item)
    requires PlacedItem(item)
    ensures ShallowItem(rules, ids, item) <==> NormalFilledItem(rules, ids, item)
    decreases item
  {
    if item.Args? {
      ShallowStatementsExactly(rules, ids, item.args.items);
      forall refs | Filling(rules, ids, refs)
        ensures NormalItem(rules, ReplaceItem(item, refs))
                <==> NormalStatements(rules, ReplaceStatements(item.args.items, refs))
      {
      }
    }
  }

  lemma {:induction false} ShallowStatementsExactly(rules: Rules, ids: set<string>, statements: seq<Statement>)
    requires PlacedStatements(statements)
    ensures ShallowStatements(rules, ids, statements) <==> NormalFilledStatements(rules, ids, statements)
    decreases statements
  {
    if statements == [] {
    } else {
      var items, rest := statements[0].items, statements[1..];
      ShallowExpressionsExactly(rules, ids, items);
      ShallowStatementsExactly(rules, ids, rest);
      forall refs | Filling(rules, ids, refs)
        ensures NormalStatements(rules, ReplaceStatements(statements, refs))
                <==> NormalExpressions(rules, ReplaceLast(items, refs))
                     && NormalStatements(rules, ReplaceStatements(rest, refs))
      {
        assert ReplaceStatements(statements, refs)[1..] == ReplaceStatements(rest, refs);
      }
    }
  }

  lemma {:induction false} ShallowExpressionsExactly(rules: Rules, ids: set<string>, expressions: seq<Expression>)
    requires PlacedExpressions(expressions)
    ensures ShallowExpressions(rules, ids, expressions) <==> NormalFilledExpressions(rules, ids, expressions)
    decreases expressions
  {
    if expressions == [] {
    } else {
      var e, rest := expressions[0], expressions[1..];
      if |expressions| > 1 {
        RefFreePlacedItems(e.items);
      }
      ShallowInnerExactly(rules, ids, e);
      ShallowExpressionsExactly(rules, ids, rest);
      forall refs | Filling(rules, ids, refs)
        ensures NormalExpressions(rules, ReplaceLast(expressions, refs))
                <==> Normal(rules, Replace(e, refs, e.cvrs)) && NormalExpressions(rules, ReplaceLast(rest, refs))
      {
        ReplaceLastParts(expressions, refs);
      }
    }
  }

  lemma ReplaceLastParts(expressions: seq<Expression>, refs: Refs)
    requires expressions != [] && PlacedExpressions(expressions)
    ensures ReplaceLast(expressions, refs)
            == [Replace(expressions[0], refs, expressions[0].cvrs)] + ReplaceLast(expressions[1..], refs)
  {
    if |expressions| > 1 {
      RefFreeReplace(expressions[0], refs);
    }
  }

  lemma {:induction false} ShallowInnerExactly(rules: Rules, ids: set<string>, e: Expression)
    requires Placed(e)
    ensures ShallowInner(rules, ids, e) <==> NormalFilled(rules, ids, e)
    decreases e
  {
    if e.IsReference() {
      forall refs | Filling(rules, ids, refs)
        ensures Normal(rules, Replace(e, refs, e.cvrs)) <==> RootNormal(rules, Replace(e, refs, e.cvrs))
      {
        FilledReference(rules, e, refs, e.cvrs);
      }
    } else {
      ShallowItemsExactly(rules, ids, e.items);
      forall refs | Filling(rules, ids, refs)
        ensures Normal(rules, Replace(e, refs, e.cvrs))
                <==> RootNormal(rules, Replace(e, refs, e.cvrs)) && NormalItems(rules, ReplaceItems(e.items, refs))
      {
      }
    }
  }

  lemma FilledReference(rules: Rules, e: Expression, refs: Refs, cvrs: Cvrs)
    requires e.IsReference() && NormalBindings(rules, refs)
    ensures NormalItems(rules, Replace(e, refs, cvrs).items)
    ensures e.items[0].id in refs ==> Normal(rules, Replace(e, refs, cvrs))
  {
    var id := e.items[0].id;
    if id in refs {
      NormalWith(rules, refs[id], refs[id].cvrs + e.cvrs);
    } else {
      assert UNBOUND[1..] == [];
    }
  }

  /** A placed replacement is shallow exactly if no way to fill it in with normal terms leaves
      something below its root that a rule matches. */
  lemma ShallowExactly(rules: Rules, ids: set<string>, r: Expression, cvrs: Cvrs)
    requires Placed(r)
    ensures Shallow(rules, ids, r)
            <==> forall refs | Filling(rules, ids, refs) :: NormalItems(rules, Replace(r, refs, cvrs).items)
  {
    if r.IsReference() {
      forall refs | Filling(rules, ids, refs)
        ensures NormalItems(rules, Replace(r, refs, cvrs).items)
      {
        FilledReference(rules, r, refs, cvrs);
      }
    } else {
      ShallowItemsExactly(rules, ids, r.items);
      assert forall refs :: Replace(r, refs, cvrs).items == ReplaceItems(r.items, refs);
    }
  }

  lemma ShallowRuleKeepsInnerNormal(rules: Rules, rule: (Expression, Expression), e: Expression)
    requires Placed(rule.1) && Shallow(rules, Ids(RefsOfItems(rule.0.items)), rule.1) && !rule.0.IsReference()
    requires RefFree(e) && NormalItems(rules, e.items) && Matches(rule.0, e).Some?
    ensures NormalItems(rules, Replace(rule.1, Matches(rule.0, e).value, e.cvrs).items)
  {
    var none: Refs := map[];
    assert none.Keys == {};
    MatchBinds(rule.0, e, none, false);
    MatchGround(rule.0, e, none, false);
    MatchBindsNormal(rules, rule.0, e, none, false);
    ShallowExactly(rules, Ids(RefsOfItems(rule.0.items)), rule.1, e.cvrs);
    assert Filling(rules, Ids(RefsOfItems(rule.0.items)), Matches(rule.0, e).value);
  }

  // When an inner expression is seen to stay unmatched

  lemma BoundReferenceIsShallow(rules: Rules, ids: set<string>, e: Expression)
    requires e.IsReference() && e.items[0].id in ids
    ensures ShallowInner(rules, ids, e)
  {
    forall refs | Filling(rules, ids, refs)
      ensures RootNormal(rules, Replace(e, refs, e.cvrs))
    {
      FilledReference(rules, e, refs, e.cvrs);
    }
  }

  /** The pattern and the expression differ in the number of items, or in a text. */
  predicate HeadsDiffer(p: Expression, e: Expression) {
    !p.IsReference()
    && (|p.items| != |e.items|
        || exists k | 0 <= k < |e.items| :: (p.items[k].Text? || e.items[k].Text?) && p.items[k] != e.items[k])
  }

  lemma {:induction false} MatchedHeads(ps: seq<Item>, ss: seq<Item>, refs: Refs, k: nat)
    requires k < |ps| == |ss| && MatchItems(ps, ss, refs).ok
    ensures ps[k].Text? || ss[k].Text? ==> ps[k] == ss[k]
  {
    if k == 0 {
    } else {
      MatchedHeads(ps[1..], ss[1..], MatchItem(ps[0], ss[0], refs).refs, k - 1);
    }
  }

  lemma {:induction false} ReplacedHeads(items: seq<Item>, refs: Refs, k: nat)
    requires k < |items|
    ensures |ReplaceItems(items, refs)| == |items|
    ensures items[k].Text? <==> ReplaceItems(items, refs)[k].Text?
    ensures items[k].Text? ==> ReplaceItems(items, refs)[k] == items[k]
  {
    if k == 0 {
      ReplacedLength(items, refs);
    } else {
      ReplacedHeads(items[1..], refs, k - 1);
    }
  }

  lemma {:induction false} ReplacedLength(items: seq<Item>, refs: Refs)
    ensures |ReplaceItems(items, refs)| == |items|
  {
    if items == [] {
    } else {
      ReplacedLength(items[1..], refs);
    }
  }

  lemma HeadsStayDifferent(p: Expression, e: Expression, refs: Refs)
    requires HeadsDiffer(p, e) && !e.IsReference()
    ensures Matches(p, Replace(e, refs, e.cvrs)).None?
  {
    var ss := ReplaceItems(e.items, refs);
    ReplacedLength(e.items, refs);
    if |p.items| == |e.items| && MatchItems(p.items, ss, map[]).ok {
      var k :| 0 <= k < |e.items| && (p.items[k].Text? || e.items[k].Text?) && p.items[k] != e.items[k];
      ReplacedHeads(e.items, refs, k);
      MatchedHeads(p.items, ss, map[], k);
    }
  }

  /** An inner expression is never matched if its head differs from that of every pattern. */
  lemma ShallowByHeads(rules: Rules, ids: set<string>, e: Expression)
    requires !e.IsReference() && ShallowItems(rules, ids, e.items)
    requires forall i | 0 <= i < |rules| :: HeadsDiffer(rules[i].0, e)
    ensures ShallowInner(rules, ids, e)
  {
    forall refs | Filling(rules, ids, refs)
      ensures RootNormal(rules, Replace(e, refs, e.cvrs))
    {
      forall i | 0 <= i < |rules|
        ensures Matches(rules[i].0, Replace(e, refs, e.cvrs)).None?
      {
        HeadsStayDifferent(rules[i].0, e, refs);
      }
    }
  }

  lemma RefFreeReplace(e: Expression, refs: Refs)
    requires RefFree(e)
    ensures Replace(e, refs, e.cvrs) == e
  {
    RefFreeIsNoReference(e);
    RefFreeLastOnlyItems(e.items);
    ReplaceIsInstance(e, refs);
    RefFreeInstance(e, refs);
  }


  // A replacement f<g<$x>> with a compound argument that holds a reference

  function Named(id: string): Expression {
    Expression([Reference(id)], [])
  }

  lemma TemplateIsShallow(rules: Rules, ids: set<string>, name: string, argument: Expression)
    requires ShallowInner(rules, ids, argument)
    ensures ShallowItems(rules, ids, Template(name, [Statement([argument])]).items)
  {
    var items, statements := Template(name, [Statement([argument])]).items, [Statement([argument])];
    assert [argument][1..] == [] && statements[1..] == [];
    assert ShallowExpressions(rules, ids, [argument]);
    assert ShallowStatements(rules, ids, statements);
    assert items[1..][1..] == [];
    assert ShallowItems(rules, ids, items[1..]);
  }

  /** It is shallow when no pattern looks like g<..>. */
  lemma NestedTemplateIsShallow(rules: Rules, ids: set<string>, f: string, g: string, x: string)
    requires x in ids
    requires forall i | 0 <= i < |rules| :: HeadsDiffer(rules[i].0, Template(g, [Statement([Named(x)])]))
    ensures Shallow(rules, ids, Template(f, [Statement([Template(g, [Statement([Named(x)])])])]))
  {
    BoundReferenceIsShallow(rules, ids, Named(x));
    TemplateIsShallow(rules, ids, g, Named(x));
    ShallowByHeads(rules, ids, Template(g, [Statement([Named(x)])]));
    TemplateIsShallow(rules, ids, f, Template(g, [Statement([Named(x)])]));
  }

  // ---------------------------------------------------------------------------
  // With shallow rules the result is a normal form, and simplifying it again changes nothing

  lemma {:induction false} TurnsKeepInnerNormal(rules: Rules, e: Expression, n: nat)
    requires PlacedRules(rules) && AllShallow(rules) && RefFree(e) && NormalItems(rules, e.items)
    requires forall i | 0 <= i < |rules| :: !rules[i].0.IsReference()
    ensures NormalItems(rules, Turns(rules, e, n).items)
    decreases n
  {
    FirstRewriteMeaning(rules, e);
    if n == 0 || FirstRewrite(rules, e).None? {
    } else {
      var i := LoopEnds.FirstExists(rules, e);
      LoopEnds.FirstRewriteIs(rules, e, i);
      ShallowRuleKeepsInnerNormal(rules, rules[i], e);
      TurnsKeepInnerNormal(rules, FirstRewrite(rules, e).value, n - 1);
    }
  }

  lemma NormalizeRootKeepsInnerNormal(rules: Rules, e: Expression)
    requires PlacedRules(rules) && AllShallow(rules) && RefFree(e) && NormalItems(rules, e.items) && RootEnds(rules, e)
    ensures Normal(rules, NormalizeRoot(rules, e))
  {
    forall i | 0 <= i < |rules|
      ensures !rules[i].0.IsReference()
    {
      if rules[i].0.IsReference() {
        LoopEnds.MatchAllNeverEnds(rules, i, e);
      }
    }
    var n: nat :| EndsAfter(rules, e, n);
    NormalizeRootIs(rules, e, n);
    TurnsKeepInnerNormal(rules, e, n);
    NormalizedRoot(rules, e);
  }

  lemma {:induction false} SimplifiedIsNormal(rules: Rules, e: Expression)
    requires PlacedRules(rules) && AllShallow(rules) && RefFree(e) && Ends(rules, e)
    ensures Normal(rules, Simplified(rules, e))
    decreases e
  {
    SimplifiedItemsAreNormal(rules, e.items);
    SimplifiedItemsRefFree(rules, e.items);
    NormalizeRootKeepsInnerNormal(rules, Expression(SimplifiedItems(rules, e.items), e.cvrs));
  }

  lemma {:induction false} SimplifiedItemsAreNormal(rules: Rules, items: seq<Item>)
    requires PlacedRules(rules) && AllShallow(rules) && RefsOfItems(items) == [] && EndsItems(rules, items)
    ensures NormalItems(rules, SimplifiedItems(rules, items))
    decreases items
  {
    if items == [] {
    } else {
      SimplifiedItemIsNormal(rules, items[0]);
      SimplifiedItemsAreNormal(rules, items[1..]);
      assert SimplifiedItems(rules, items)[1..] == SimplifiedItems(rules, items[1..]);
    }
  }

  lemma {:induction false} SimplifiedItemIsNormal(rules: Rules, item: Item)
    requires PlacedRules(rules) && AllShallow(rules) && RefsOfItem(item) == [] && EndsItem(rules, item)
    ensures NormalItem(rules, SimplifiedItem(rules, item))
    decreases item
  {
    if item.Args? {
      SimplifiedStatementsAreNormal(rules, item.args.items);
    }
  }

  lemma {:induction false} SimplifiedStatementsAreNormal(rules: Rules, statements: seq<Statement>)
    requires PlacedRules(rules) && AllShallow(rules) && RefsOfStatements(statements) == [] && EndsStatements(rules, statements)
    ensures NormalStatements(rules, SimplifiedStatements(rules, statements))
    decreases statements
  {
    if statements == [] {
    } else {
      SimplifiedExpressionsAreNormal(rules, statements[0].items);
      SimplifiedStatementsAreNormal(rules, statements[1..]);
      assert SimplifiedStatements(rules, statements)[1..] == SimplifiedStatements(rules, statements[1..]);
    }
  }

  lemma {:induction false} SimplifiedExpressionsAreNormal(rules: Rules, expressions: seq<Expression>)
    requires PlacedRules(rules) && AllShallow(rules) && RefsOfExpressions(expressions) == [] && EndsExpressions(rules, expressions)
    ensures NormalExpressions(rules, SimplifiedExpressions(rules, expressions))
    decreases expressions
  {
    if expressions == [] {
    } else {
      SimplifiedIsNormal(rules, expressions[0]);
      SimplifiedExpressionsAreNormal(rules, expressions[1..]);
      assert SimplifiedExpressions(rules, expressions)[1..] == SimplifiedExpressions(rules, expressions[1..]);
    }
  }

  lemma {:induction false} NormalIsFixed(rules: Rules, e: Expression)
    requires Normal(rules, e)
    ensures Ends(rules, e) && Simplified(rules, e) == e
    decreases e
  {
    NormalItemsAreFixed(rules, e.items);
    FirstRewriteMeaning(rules, e);
    NormalizeRootTurn(rules, e);
  }

  lemma {:induction false} NormalItemsAreFixed(rules: Rules, items: seq<Item>)
    requires NormalItems(rules, items)
    ensures EndsItems(rules, items) && SimplifiedItems(rules, items) == items
    decreases items
  {
    if items == [] {
    } else {
      NormalItemIsFixed(rules, items[0]);
      NormalItemsAreFixed(rules, items[1..]);
    }
  }

  lemma {:induction false} NormalItemIsFixed(rules: Rules, item: Item)
    requires NormalItem(rules, item)
    ensures EndsItem(rules, item) && SimplifiedItem(rules, item) == item
    decreases item
  {
    if item.Args? {
      NormalStatementsAreFixed(rules, item.args.items);
    }
  }

  lemma {:induction false} NormalStatementsAreFixed(rules: Rules, statements: seq<Statement>)
    requires NormalStatements(rules, statements)
    ensures EndsStatements(rules, statements) && SimplifiedStatements(rules, statements) == statements
    decreases statements
  {
    if statements == [] {
    } else {
      NormalExpressionsAreFixed(rules, statements[0].items);
      NormalStatementsAreFixed(rules, statements[1..]);
    }
  }

  lemma {:induction false} NormalExpressionsAreFixed(rules: Rules, expressions: seq<Expression>)
    requires NormalExpressions(rules, expressions)
    ensures EndsExpressions(rules, expressions) && SimplifiedExpressions(rules, expressions) == expressions
    decreases expressions
  {
    if expressions == [] {
    } else {
      NormalIsFixed(rules, expressions[0]);
      NormalExpressionsAreFixed(rules, expressions[1..]);
    }
  }

  /** With shallow rules `simplified`, where it ends, yields a normal form and is idempotent. */
  lemma SimplifiedTwice(rules: Rules, e: Expression)
    requires PlacedRules(rules) && AllShallow(rules) && RefFree(e) && Ends(rules, e)
    ensures forall b :: !Step(rules, Simplified(rules, e), b)
    ensures Ends(rules, Simplified(rules, e)) && Simplified(rules, Simplified(rules, e)) == Simplified(rules, e)
  {
    SimplifiedIsNormal(rules, e);
    NormalMeansNoStep(rules, Simplified(rules, e));
    NormalIsFixed(rules, Simplified(rules, e));
  }

  // ---------------------------------------------------------------------------
  // Whether calls always end, read off a table of shallow rules

  ghost predicate ConstantOrDecreasing(rules: Rules) {
    PlacedRules(rules) && forall i | 0 <= i < |rules| :: Decreasing(rules[i]) || LoopEnds.Constant(rules[i])
  }

  /** Each rule that gives its pattern back stands behind one that matches it, or its arguments are
      rewritten before it is tried. */
  ghost predicate ConstantsAreBehind(rules: Rules) {
    forall i | 0 <= i < |rules| && LoopEnds.Constant(rules[i]) && NormalItems(rules, rules[i].0.items) ::
      exists j | 0 <= j < i :: Matches(rules[j].0, rules[i].0).Some?
  }

  lemma {:induction false} NoReferencePattern(rules: Rules)
    requires ConstantOrDecreasing(rules)
    ensures forall i | 0 <= i < |rules| :: !rules[i].0.IsReference()
  {
    forall i | 0 <= i < |rules|
      ensures !rules[i].0.IsReference()
    {
      RefFreeIsNoReference(rules[i].0);
    }
  }

  lemma {:induction false} NormalLoopEnds(rules: Rules, e: Expression)
    requires ConstantOrDecreasing(rules) && AllShallow(rules) && ConstantsAreBehind(rules)
    requires RefFree(e) && NormalItems(rules, e.items)
    ensures RootEnds(rules, e)
  {
    NoReferencePattern(rules);
    forall n: nat, i: nat | LoopEnds.FirstIs(rules, Turns(rules, e, n), i)
      ensures Decreasing(rules[i])
    {
      TurnsRefFree(rules, e, n);
      TurnsKeepInnerNormal(rules, e, n);
      if LoopEnds.Constant(rules[i]) {
        ConstantIsNotFirst(rules, Turns(rules, e, n), i);
      }
    }
    LoopEnds.DecreasingLoopEnds(rules, e);
  }

  lemma {:induction false} ConstantIsNotFirst(rules: Rules, t: Expression, i: nat)
    requires ConstantsAreBehind(rules) && RefFree(t) && NormalItems(rules, t.items)
    requires i < |rules| && LoopEnds.Constant(rules[i])
    ensures !LoopEnds.FirstIs(rules, t, i)
  {
    var p := rules[i].0;
    RefFreeMatch(p, t, map[], false);
    if Matches(p, t).Some? {
      var j :| 0 <= j < i && Matches(rules[j].0, p).Some?;
      LoopEnds.MatchesWith(rules[j].0, p, t.cvrs);
    }
  }

  lemma {:induction false} CallEnds(rules: Rules, e: Expression)
    requires ConstantOrDecreasing(rules) && AllShallow(rules) && ConstantsAreBehind(rules) && RefFree(e)
    ensures Ends(rules, e)
    decreases e
  {
    CallEndsOnItems(rules, e.items);
    SimplifiedItemsAreNormal(rules, e.items);
    SimplifiedItemsRefFree(rules, e.items);
    NormalLoopEnds(rules, Expression(SimplifiedItems(rules, e.items), e.cvrs));
  }

  lemma {:induction false} CallEndsOnItems(rules: Rules, items: seq<Item>)
    requires ConstantOrDecreasing(rules) && AllShallow(rules) && ConstantsAreBehind(rules) && RefsOfItems(items) == []
    ensures EndsItems(rules, items)
    decreases items
  {
    if items == [] {
    } else {
      CallEndsOnItem(rules, items[0]);
      CallEndsOnItems(rules, items[1..]);
    }
  }

  lemma {:induction false} CallEndsOnItem(rules: Rules, item: Item)
    requires ConstantOrDecreasing(rules) && AllShallow(rules) && ConstantsAreBehind(rules) && RefsOfItem(item) == []
    ensures EndsItem(rules, item)
    decreases item
  {
    if item.Args? {
      CallEndsOnStatements(rules, item.args.items);
    }
  }

  lemma {:induction false} CallEndsOnStatements(rules: Rules, statements: seq<Statement>)
    requires ConstantOrDecreasing(rules) && AllShallow(rules) && ConstantsAreBehind(rules)
    requires RefsOfStatements(statements) == []
    ensures EndsStatements(rules, statements)
    decreases statements
  {
    if statements == [] {
    } else {
      CallEndsOnExpressions(rules, statements[0].items);
      CallEndsOnStatements(rules, statements[1..]);
    }
  }

  lemma {:induction false} CallEndsOnExpressions(rules: Rules, expressions: seq<Expression>)
    requires ConstantOrDecreasing(rules) && AllShallow(rules) && ConstantsAreBehind(rules)
    requires RefsOfExpressions(expressions) == []
    ensures EndsExpressions(rules, expressions)
    decreases expressions
  {
    if expressions == [] {
    } else {
      CallEnds(rules, expressions[0]);
      CallEndsOnExpressions(rules, expressions[1..]);
    }
  }

  lemma {:induction false} MetConstantNeverEnds(rules: Rules, i: nat)
    requires PlacedRules(rules) && i < |rules| && LoopEnds.Constant(rules[i]) && NormalItems(rules, rules[i].0.items)
    requires forall j | 0 <= j < i :: Matches(rules[j].0, rules[i].0).None?
    ensures RefFree(rules[i].0) && !Ends(rules, rules[i].0)
  {
    var p := rules[i].0;
    LoopEnds.ConstantIsIdle(rules[i]);
    RefFreeMatch(p, p, map[], false);
    NormalItemsAreFixed(rules, p.items);
    assert Turns(rules, p, 0) == p && LoopEnds.FirstIs(rules, p, i);
    LoopEnds.IdleRuleNeverEnds(rules, p, 0, i);
  }

  /** With shallow rules that decrease or give back a pattern without references, calls of `simplified`
      end on every subject exactly if each of the latter stands behind a rule that matches its
      pattern, unless the pattern's own arguments are rewritten first. */
  lemma CallsEndExactly(rules: Rules)
    requires ConstantOrDecreasing(rules) && AllShallow(rules)
    ensures (forall e | RefFree(e) :: Ends(rules, e)) <==> ConstantsAreBehind(rules)
  {
    if ConstantsAreBehind(rules) {
      forall e | RefFree(e)
        ensures Ends(rules, e)
      {
        CallEnds(rules, e);
      }
    } else {
      var i :| 0 <= i < |rules| && LoopEnds.Constant(rules[i]) && NormalItems(rules, rules[i].0.items)
        && forall j | 0 <= j < i :: Matches(rules[j].0, rules[i].0).None?;
      MetConstantNeverEnds(rules, i);
    }
  }

  // Shallowness is needed: arguments that a replacement brings in are not simplified again.

  function Plain(text: string): Expression {
    Expression([Text(text)], [])
  }

  function Call(argument: Expression): Expression {
    Expression([Args(ArgumentList(OPEN_PAREN, CLOSE_PAREN, [Statement([argument])]))], [])
  }

  lemma Singletons(item: Item, e: Expression)
    ensures RefsOfItems([item]) == RefsOfItem(item) && PlacedItems([item]) == PlacedItem(item)
    ensures WeightOfItems([item]) == WeightOfItem(item)
    ensures var s := [Statement([e])];
            RefsOfStatements(s) == RefsOfItems(e.items) && PlacedStatements(s) == Placed(e)
            && WeightOfStatements(s) == 1 + Weight(e)
  {
    assert [item][1..] == [] && [e][1..] == [] && [Statement([e])][1..] == [];
    assert RefsOfExpressions([e]) == RefsOfItems(e.items) && WeightOfExpressions([e]) == Weight(e);
  }

  lemma PlainTerm(text: string)
    ensures var e := Plain(text);
            RefFree(e) && Placed(e) && Weight(e) == 2 + |text|
            && RefFree(Call(e)) && Placed(Call(e)) && Weight(Call(e)) == 5 + |text|
  {
    var e := Plain(text);
    Singletons(Text(text), e);
    Singletons(Call(e).items[0], e);
  }

  ghost function DeepRules(a: string, x: string, y: string): Rules {
    [(Plain(a), Call(Plain(x))), (Plain(x), Plain(y))]
  }

  /** The rules' effect at the root of a term without references. */
  lemma DeepRulesAtRoot(a: string, x: string, y: string, e: Expression)
    requires RefFree(e)
    ensures FirstRewrite(DeepRules(a, x, y), e)
            == if e.items == [Text(a)] then Some(Expression(Call(Plain(x)).items, e.cvrs))
               else if e.items == [Text(x)] then Some(Expression([Text(y)], e.cvrs))
               else None
  {
    var rules := DeepRules(a, x, y);
    PlainTerm(a);
    PlainTerm(x);
    PlainTerm(y);
    RefFreeMatch(Plain(a), e, map[], false);
    RefFreeMatch(Plain(x), e, map[], false);
    RefFreeReplace(Call(Plain(x)), map[]);
    RefFreeReplace(Plain(y), map[]);
    assert rules[1..] == [rules[1]] && rules[1..][1..] == [];
    assert Replace(Plain(y), map[], e.cvrs) == Expression([Text(y)], e.cvrs);
    assert Replace(Call(Plain(x)), map[], e.cvrs) == Expression(Call(Plain(x)).items, e.cvrs);
    assert FirstRewrite(rules[1..], e) == if e.items == [Text(x)] then Some(Expression([Text(y)], e.cvrs)) else None;
    assert Matches(Plain(a), e) == if e.items == [Text(a)] then Some(map[]) else None;
  }

  lemma DeepReplacementLeavesRedex(a: string, x: string, y: string)
    requires |y| < |x| && |x| + 3 < |a|
    ensures var rules, e := DeepRules(a, x, y), Plain(a);
            AllDecreasing(rules) && RefFree(e) && Ends(rules, e)
            && Simplified(rules, e) == Call(Plain(x))
            && Simplified(rules, Simplified(rules, e)) == Call(Plain(y))
  {
    var rules := DeepRules(a, x, y);
    DeepRulesDecrease(a, x, y);
    LoopEnds.AllDecreasingEnds(rules, Plain(a));
    DeepRulesNormalize(a, x, y);
    SimplifiedWord(rules, a);
    SimplifiedWord(rules, x);
    SimplifiedCall(rules, Plain(x));
  }

  lemma DeepRulesDecrease(a: string, x: string, y: string)
    requires |y| < |x| && |x| + 3 < |a|
    ensures AllDecreasing(DeepRules(a, x, y)) && RefFree(Plain(a))
  {
    var rules := DeepRules(a, x, y);
    PlainTerm(a);
    PlainTerm(x);
    PlainTerm(y);
    assert Decreasing(rules[0]) && Decreasing(rules[1]);
  }

  /** What the loop at the root makes of the terms involved. */
  lemma DeepRulesNormalize(a: string, x: string, y: string)
    requires |y| < |x| && |x| + 3 < |a|
    ensures var rules := DeepRules(a, x, y);
            && RootEnds(rules, Plain(a)) && NormalizeRoot(rules, Plain(a)) == Call(Plain(x))
            && RootEnds(rules, Plain(x)) && NormalizeRoot(rules, Plain(x)) == Plain(y)
            && NormalizeRoot(rules, Call(Plain(y))) == Call(Plain(y))
  {
    hide FirstRewrite, NormalizeRoot, RootEnds;
    var rules := DeepRules(a, x, y);
    var terms := [Plain(a), Plain(x), Plain(y), Call(Plain(x)), Call(Plain(y))];
    forall e | e in terms
      ensures RefFree(e)
    {
      PlainTerm(a);
      PlainTerm(x);
      PlainTerm(y);
    }
    forall e | e in terms
      ensures FirstRewrite(rules, e).None? ==> RootEnds(rules, e) && NormalizeRoot(rules, e) == e
    {
      NormalizeRootTurn(rules, e);
    }
    DeepRulesAtRoot(a, x, y, Plain(y));
    DeepRulesAtRoot(a, x, y, Call(Plain(x)));
    DeepRulesAtRoot(a, x, y, Call(Plain(y)));
    DeepRulesAtRoot(a, x, y, Plain(x));
    DeepRulesAtRoot(a, x, y, Plain(a));
    NormalizeRootTurn(rules, Plain(x));
    NormalizeRootTurn(rules, Plain(a));
  }

  lemma SimplifiedWord(rules: Rules, text: string)
    ensures Simplified(rules, Plain(text)) == NormalizeRoot(rules, Plain(text))
  {
    hide NormalizeRoot;
    SimplifiedItemsAt(rules, Plain(text).items, 0);
    assert SimplifiedItems(rules, Plain(text).items) == Plain(text).items;
  }

  lemma SimplifiedCall(rules: Rules, e: Expression)
    ensures Simplified(rules, Call(e)) == NormalizeRoot(rules, Call(Simplified(rules, e)))
  {
    hide NormalizeRoot;
    SimplifiedExpressionsAt(rules, [e], 0);
    SimplifiedStatementsAt(rules, [Statement([e])], 0);
    SimplifiedItemsAt(rules, Call(e).items, 0);
    assert SimplifiedExpressions(rules, [e]) == [Simplified(rules, e)];
    assert SimplifiedStatements(rules, [Statement([e])]) == [Statement([Simplified(rules, e)])];
    assert SimplifiedItems(rules, Call(e).items) == Call(Simplified(rules, e)).items;
  }
}
