/**
 What `simplified` means: its result is reached by finitely many rule applications in context,
 no rule matches the result at its root, and terms in which no rule matches anywhere are those
 from which the rewrite relation takes no step.
 */
module NormalForms {
  import opened Terms
  import opened Matching
  import opened Rewriting

  // ---------------------------------------------------------------------------
  // The rewrite relation: one rule application somewhere in the term

  ghost predicate Step(rules: Rules, a: Expression, b: Expression)
    decreases a
  {
    RewritesAtRoot(rules, a, b) || (a.cvrs == b.cvrs && StepItems(rules, a.items, b.items))
  }

  ghost predicate StepItems(rules: Rules, a: seq<Item>, b: seq<Item>)
    decreases a
  {
    a != [] && |a| == |b|
    && ((StepItem(rules, a[0], b[0]) && a[1..] == b[1..]) || (a[0] == b[0] && StepItems(rules, a[1..], b[1..])))
  }

  ghost predicate StepItem(rules: Rules, a: Item, b: Item)
    decreases a
  {
    a.Args? && b.Args? && a.args.start == b.args.start && a.args.stop == b.args.stop
    && StepStatements(rules, a.args.items, b.args.items)
  }

  ghost predicate StepStatements(rules: Rules, a: seq<Statement>, b: seq<Statement>)
    decreases a
  {
    a != [] && |a| == |b|
    && ((StepExpressions(rules, a[0].items, b[0].items) && a[1..] == b[1..])
        || (a[0] == b[0] && StepStatements(rules, a[1..], b[1..])))
  }

  ghost predicate StepExpressions(rules: Rules, a: seq<Expression>, b: seq<Expression>)
    decreases a
  {
    a != [] && |a| == |b|
    && ((Step(rules, a[0], b[0]) && a[1..] == b[1..]) || (a[0] == b[0] && StepExpressions(rules, a[1..], b[1..])))
  }

  /** `b` is reached from `a` by exactly `n` steps of the relation `r`. */
  ghost predicate Steps<T(!new)>(r: (T, T) -> bool, a: T, b: T, n: nat) {
    if n == 0 then a == b else exists c :: r(a, c) && Steps(r, c, b, n - 1)
  }

  ghost predicate Reaches<T(!new)>(r: (T, T) -> bool, a: T, b: T) {
    exists n: nat :: Steps(r, a, b, n)
  }

  lemma {:induction false} StepsConcat<T(!new)>(r: (T, T) -> bool, a: T, b: T, c: T, m: nat, n: nat)
    requires Steps(r, a, b, m) && Steps(r, b, c, n)
    ensures Steps(r, a, c, m + n)
  {
    if m == 0 {
    } else {
      var x :| r(a, x) && Steps(r, x, b, m - 1);
      StepsConcat(r, x, b, c, m - 1, n);
    }
  }

  lemma ReachesSelf<T(!new)>(r: (T, T) -> bool, a: T)
    ensures Reaches(r, a, a)
  {
    assert Steps(r, a, a, 0);
  }

  lemma ReachesOnce<T(!new)>(r: (T, T) -> bool, a: T, b: T)
    requires r(a, b)
    ensures Reaches(r, a, b)
  {
    assert Steps(r, b, b, 0);
    assert Steps(r, a, b, 1);
  }

  lemma ReachesTransitive<T(!new)>(r: (T, T) -> bool, a: T, b: T, c: T)
    requires Reaches(r, a, b) && Reaches(r, b, c)
    ensures Reaches(r, a, c)
  {
    var m: nat :| Steps(r, a, b, m);
    var n: nat :| Steps(r, b, c, n);
    StepsConcat(r, a, b, c, m, n);
  }

  lemma {:induction false} StepsLift<S(!new), T(!new)>(r: (S, S) -> bool, q: (T, T) -> bool, f: S -> T, a: S, b: S, n: nat)
    requires Steps(r, a, b, n) && forall x, y | r(x, y) :: q(f(x), f(y))
    ensures Steps(q, f(a), f(b), n)
  {
    if n == 0 {
    } else {
      var x :| r(a, x) && Steps(r, x, b, n - 1);
      StepsLift(r, q, f, x, b, n - 1);
    }
  }

  lemma ReachesLift<S(!new), T(!new)>(r: (S, S) -> bool, q: (T, T) -> bool, f: S -> T, a: S, b: S)
    requires Reaches(r, a, b) && forall x, y | r(x, y) :: q(f(x), f(y))
    ensures Reaches(q, f(a), f(b))
  {
    var n: nat :| Steps(r, a, b, n);
    StepsLift(r, q, f, a, b, n);
  }

  ghost function OnTerms(rules: Rules): (Expression, Expression) -> bool {
    (a, b) => Step(rules, a, b)
  }

  ghost function OnItems(rules: Rules): (seq<Item>, seq<Item>) -> bool {
    (a, b) => StepItems(rules, a, b)
  }

  ghost function OnStatements(rules: Rules): (seq<Statement>, seq<Statement>) -> bool {
    (a, b) => StepStatements(rules, a, b)
  }

  ghost function OnExpressions(rules: Rules): (seq<Expression>, seq<Expression>) -> bool {
    (a, b) => StepExpressions(rules, a, b)
  }

  // ---------------------------------------------------------------------------
  // The result is reachable and normal at its root

  lemma {:induction false} TurnsReachable(rules: Rules, e: Expression, n: nat)
    ensures Reaches(OnTerms(rules), e, Turns(rules, e, n))
    decreases n
  {
    hide Reaches, Steps, FirstRewrite;
    var r := OnTerms(rules);
    ReachesSelf(r, e);
    FirstRewriteMeaning(rules, e);
    if n == 0 || FirstRewrite(rules, e).None? {
    } else {
      var next := FirstRewrite(rules, e).value;
      assert r(e, next);
      TurnsReachable(rules, next, n - 1);
      ReachesOnce(r, e, next);
      ReachesTransitive(r, e, next, Turns(rules, e, n));
    }
  }

  lemma NormalizeRootReachable(rules: Rules, e: Expression)
    ensures Reaches(OnTerms(rules), e, NormalizeRoot(rules, e))
  {
    if RootEnds(rules, e) {
      var n: nat :| EndsAfter(rules, e, n);
      NormalizeRootIs(rules, e, n);
      TurnsReachable(rules, e, n);
    } else {
      ReachesSelf(OnTerms(rules), e);
    }
  }

  /** `simplified` stays inside the rewrite relation and stops only when no rule matches the result. */
  lemma {:induction false} SimplifiedReachable(rules: Rules, e: Expression)
    ensures Reaches(OnTerms(rules), e, Simplified(rules, e))
    ensures Ends(rules, e) ==> RootNormal(rules, Simplified(rules, e))
    decreases e
  {
    var inner := Expression(SimplifiedItems(rules, e.items), e.cvrs);
    SimplifiedItemsReachable(rules, e.items);
    ReachesLift(OnItems(rules), OnTerms(rules), (items: seq<Item>) => Expression(items, e.cvrs),
                e.items, inner.items);
    NormalizeRootReachable(rules, inner);
    ReachesTransitive(OnTerms(rules), e, inner, Simplified(rules, e));
    NormalizedRoot(rules, inner);
  }

  lemma {:induction false} SimplifiedItemsReachable(rules: Rules, items: seq<Item>)
    ensures Reaches(OnItems(rules), items, SimplifiedItems(rules, items))
    decreases items
  {
    hide Reaches, Steps, StepItem, SimplifiedItem;
    var r := OnItems(rules);
    if items == [] {
      ReachesSelf(r, items);
    } else {
      var head, tail := SimplifiedItem(rules, items[0]), items[1..];
      SimplifiedItemReachable(rules, items[0], tail);
      SimplifiedItemsReachable(rules, tail);
      ReachesLift(r, r, (rest: seq<Item>) => [head] + rest, tail, SimplifiedItems(rules, tail));
      assert items == [items[0]] + tail;
      ReachesTransitive(r, items, [head] + tail, SimplifiedItems(rules, items));
    }
  }

  lemma {:induction false} SimplifiedItemReachable(rules: Rules, item: Item, rest: seq<Item>)
    ensures Reaches(OnItems(rules), [item] + rest, [SimplifiedItem(rules, item)] + rest)
    decreases item
  {
    var r := OnItems(rules);
    if item.Args? {
      var args := item.args;
      SimplifiedStatementsReachable(rules, args.items);
      var f := (statements: seq<Statement>) => [Args(ArgumentList(args.start, args.stop, statements))] + rest;
      forall x, y | OnStatements(rules)(x, y)
        ensures r(f(x), f(y))
      {
        assert StepItem(rules, f(x)[0], f(y)[0]);
      }
      ReachesLift(OnStatements(rules), r, f, args.items, SimplifiedStatements(rules, args.items));
    } else {
      ReachesSelf(r, [item] + rest);
    }
  }

  lemma {:induction false} SimplifiedStatementsReachable(rules: Rules, statements: seq<Statement>)
    ensures Reaches(OnStatements(rules), statements, SimplifiedStatements(rules, statements))
    decreases statements
  {
    hide Reaches, Steps, StepExpressions, SimplifiedExpressions;
    var r := OnStatements(rules);
    if statements == [] {
      ReachesSelf(r, statements);
    } else {
      var items, tail := statements[0].items, statements[1..];
      var head := SimplifiedExpressions(rules, items);
      SimplifiedExpressionsReachable(rules, items);
      ReachesLift(OnExpressions(rules), r, (es: seq<Expression>) => [Statement(es)] + tail, items, head);
      SimplifiedStatementsReachable(rules, tail);
      ReachesLift(r, r, (rest: seq<Statement>) => [Statement(head)] + rest, tail, SimplifiedStatements(rules, tail));
      assert statements == [Statement(items)] + tail;
      ReachesTransitive(r, statements, [Statement(head)] + tail, SimplifiedStatements(rules, statements));
    }
  }

  lemma {:induction false} SimplifiedExpressionsReachable(rules: Rules, expressions: seq<Expression>)
    ensures Reaches(OnExpressions(rules), expressions, SimplifiedExpressions(rules, expressions))
    decreases expressions
  {
    hide Reaches, Steps, Step, Simplified;
    var r := OnExpressions(rules);
    if expressions == [] {
      ReachesSelf(r, expressions);
    } else {
      var head, tail := Simplified(rules, expressions[0]), expressions[1..];
      SimplifiedReachable(rules, expressions[0]);
      ReachesLift(OnTerms(rules), r, (e: Expression) => [e] + tail, expressions[0], head);
      SimplifiedExpressionsReachable(rules, tail);
      ReachesLift(r, r, (rest: seq<Expression>) => [head] + rest, tail, SimplifiedExpressions(rules, tail));
      assert expressions == [expressions[0]] + tail;
      ReachesTransitive(r, expressions, [head] + tail, SimplifiedExpressions(rules, expressions));
    }
  }

  // ---------------------------------------------------------------------------
  // Normal forms

  /** No rule matches the expression or any expression inside it. */
  ghost predicate Normal(rules: Rules, e: Expression)
    decreases e
  {
    RootNormal(rules, e) && NormalItems(rules, e.items)
  }

  ghost predicate NormalItems(rules: Rules, items: seq<Item>)
    decreases items
  {
    items == [] || (NormalItem(rules, items[0]) && NormalItems(rules, items[1..]))
  }

  ghost predicate NormalItem(rules: Rules, item: Item)
    decreases item
  {
    item.Args? ==> NormalStatements(rules, item.args.items)
  }

  ghost predicate NormalStatements(rules: Rules, statements: seq<Statement>)
    decreases statements
  {
    statements == [] || (NormalExpressions(rules, statements[0].items) && NormalStatements(rules, statements[1..]))
  }

  ghost predicate NormalExpressions(rules: Rules, expressions: seq<Expression>)
    decreases expressions
  {
    expressions == [] || (Normal(rules, expressions[0]) && NormalExpressions(rules, expressions[1..]))
  }

  /** Normal terms are exactly those from which the rewrite relation takes no step. */
  lemma {:induction false} NormalMeansNoStep(rules: Rules, e: Expression)
    ensures !Normal(rules, e) <==> exists b :: Step(rules, e, b)
    decreases e
  {
    NormalItemsMeansNoStep(rules, e.items);
    if Normal(rules, e) {
      forall b
        ensures !Step(rules, e, b)
      {
        assert !StepItems(rules, e.items, b.items);
      }
    } else if !RootNormal(rules, e) {
      var i :| 0 <= i < |rules| && Matches(rules[i].0, e).Some?;
      assert Step(rules, e, Replace(rules[i].1, Matches(rules[i].0, e).value, e.cvrs));
      assert exists c :: Step(rules, e, c);
    } else {
      var b :| StepItems(rules, e.items, b);
      assert Step(rules, e, Expression(b, e.cvrs));
      assert exists c :: Step(rules, e, c);
    }
  }

  lemma {:induction false} NormalItemsMeansNoStep(rules: Rules, items: seq<Item>)
    ensures !NormalItems(rules, items) <==> exists b :: StepItems(rules, items, b)
    decreases items
  {
    if items == [] {
    } else {
      NormalItemMeansNoStep(rules, items[0]);
      NormalItemsMeansNoStep(rules, items[1..]);
      if !NormalItem(rules, items[0]) {
        var b :| StepItem(rules, items[0], b);
        assert StepItems(rules, items, [b] + items[1..]);
        assert exists c :: StepItems(rules, items, c);
      } else if !NormalItems(rules, items[1..]) {
        var b :| StepItems(rules, items[1..], b);
        assert ([items[0]] + b)[1..] == b;
        assert StepItems(rules, items, [items[0]] + b);
        assert exists c :: StepItems(rules, items, c);
      } else {
        forall b | b != [] && |b| == |items|
          ensures !StepItems(rules, items, b)
        {
          assert !StepItem(rules, items[0], b[0]) && !StepItems(rules, items[1..], b[1..]);
        }
      }
    }
  }

  lemma {:induction false} NormalItemMeansNoStep(rules: Rules, item: Item)
    ensures !NormalItem(rules, item) <==> exists b :: StepItem(rules, item, b)
    decreases item
  {
    if item.Args? {
      NormalStatementsMeansNoStep(rules, item.args.items);
      if !NormalItem(rules, item) {
        var b :| StepStatements(rules, item.args.items, b);
        assert StepItem(rules, item, Args(ArgumentList(item.args.start, item.args.stop, b)));
        assert exists c :: StepItem(rules, item, c);
      } else {
        forall b: Item | b.Args?
          ensures !StepItem(rules, item, b)
        {
          assert !StepStatements(rules, item.args.items, b.args.items);
        }
      }
    }
  }

  lemma {:induction false} NormalStatementsMeansNoStep(rules: Rules, statements: seq<Statement>)
    ensures !NormalStatements(rules, statements) <==> exists b :: StepStatements(rules, statements, b)
    decreases statements
  {
    if statements == [] {
    } else {
      var items, tail := statements[0].items, statements[1..];
      NormalExpressionsMeansNoStep(rules, items);
      NormalStatementsMeansNoStep(rules, tail);
      if !NormalExpressions(rules, items) {
        var b :| StepExpressions(rules, items, b);
        assert ([Statement(b)] + tail)[0].items == b;
        assert StepStatements(rules, statements, [Statement(b)] + tail);
        assert exists c :: StepStatements(rules, statements, c);
      } else if !NormalStatements(rules, tail) {
        var b :| StepStatements(rules, tail, b);
        assert ([statements[0]] + b)[1..] == b;
        assert StepStatements(rules, statements, [statements[0]] + b);
        assert exists c :: StepStatements(rules, statements, c);
      } else {
        forall b: seq<Statement> | b != [] && |b| == |statements|
          ensures !StepStatements(rules, statements, b)
        {
          assert !StepExpressions(rules, items, b[0].items) && !StepStatements(rules, tail, b[1..]);
        }
      }
    }
  }

  lemma {:induction false} NormalExpressionsMeansNoStep(rules: Rules, expressions: seq<Expression>)
    ensures !NormalExpressions(rules, expressions) <==> exists b :: StepExpressions(rules, expressions, b)
    decreases expressions
  {
    if expressions == [] {
    } else {
      NormalMeansNoStep(rules, expressions[0]);
      NormalExpressionsMeansNoStep(rules, expressions[1..]);
      if !Normal(rules, expressions[0]) {
        var b :| Step(rules, expressions[0], b);
        assert StepExpressions(rules, expressions, [b] + expressions[1..]);
        assert exists c :: StepExpressions(rules, expressions, c);
      } else if !NormalExpressions(rules, expressions[1..]) {
        var b :| StepExpressions(rules, expressions[1..], b);
        assert ([expressions[0]] + b)[1..] == b;
        assert StepExpressions(rules, expressions, [expressions[0]] + b);
        assert exists c :: StepExpressions(rules, expressions, c);
      } else {
        forall b | b != [] && |b| == |expressions|
          ensures !StepExpressions(rules, expressions, b)
        {
          assert !Step(rules, expressions[0], b[0]) && !StepExpressions(rules, expressions[1..], b[1..]);
        }
      }
    }
  }
}
