/**
 When the loops of `simplified` end: for rules that decrease or change nothing, exactly when each
 rule that a turn applies decreases.  A rule that changes nothing is in the table that comes with
 the program, and the loop never ends on a name that holds its pattern.
 */
module LoopEnds {
  import opened Wrappers
  import opened Terms
  import opened Matching
  import opened Rewriting

  // ---------------------------------------------------------------------------
  // The rule that a turn applies

  /** Rule `i` is the first to match. */
  ghost predicate FirstIs(rules: Rules, e: Expression, i: nat) {
    i < |rules| && Matches(rules[i].0, e).Some? && forall j | 0 <= j < i :: Matches(rules[j].0, e).None?
  }

  lemma {:induction false} FirstRewriteIs(rules: Rules, e: Expression, i: nat)
    requires FirstIs(rules, e, i)
    ensures FirstRewrite(rules, e) == Some(Replace(rules[i].1, Matches(rules[i].0, e).value, e.cvrs))
  {
    if i == 0 {
    } else {
      assert rules[1..][i - 1] == rules[i] && forall j | 0 <= j < i - 1 :: rules[1..][j] == rules[j + 1];
      FirstRewriteIs(rules[1..], e, i - 1);
    }
  }

  lemma {:induction false} FirstExists(rules: Rules, e: Expression) returns (i: nat)
    requires FirstRewrite(rules, e).Some?
    ensures FirstIs(rules, e, i)
  {
    if Matches(rules[0].0, e).Some? {
      i := 0;
    } else {
      i := FirstExists(rules[1..], e);
      assert forall j | 0 < j <= i + 1 :: rules[j] == rules[1..][j - 1];
      i := i + 1;
    }
  }

  /** Outermost levels do not decide which rules match. */
  lemma MatchesWith(p: Expression, e: Expression, cvrs: Cvrs)
    ensures Matches(p, Expression(e.items, cvrs)).Some? <==> Matches(p, e).Some?
  {
  }

  lemma {:induction false} TurnsPlus(rules: Rules, e: Expression, m: nat, n: nat)
    ensures Turns(rules, e, m + n) == Turns(rules, Turns(rules, e, m), n)
    decreases m
  {
    if m == 0 {
    } else if FirstRewrite(rules, e).None? {
      assert Turns(rules, e, n) == e;
    } else {
      TurnsPlus(rules, FirstRewrite(rules, e).value, m - 1, n);
    }
  }

  // ---------------------------------------------------------------------------
  // Rules that decrease, and rules that never stop

  /** Matches whatever it is given, or gives an invertible pattern back. */
  predicate Idle(rule: (Expression, Expression)) {
    rule.0.IsReference() || (rule.1 == rule.0 && Invertible(rule.0))
  }

  predicate Tame(rules: Rules) {
    PlacedRules(rules) && forall i | 0 <= i < |rules| :: Decreasing(rules[i]) || Idle(rules[i])
  }

  /** Each rule that is applied on the way of one subject through the loop decreases. */
  ghost predicate LoopDecreases(rules: Rules, e: Expression) {
    forall n: nat, i: nat | FirstIs(rules, Turns(rules, e, n), i) :: Decreasing(rules[i])
  }

  /** Each rule that is the first to match some subject decreases. */
  ghost predicate FirstsDecrease(rules: Rules) {
    forall e: Expression, i: nat | RefFree(e) && FirstIs(rules, e, i) :: Decreasing(rules[i])
  }

  lemma IdentityRuleMakesNoProgress(p: Expression, s: Expression)
    requires Invertible(p) && RefFree(s) && Matches(p, s).Some?
    ensures Replace(p, Matches(p, s).value, s.cvrs) == s
  {
    RebuildsExactlyWhenInvertible(p, s);
  }

  lemma {:induction false} StandsStill(rules: Rules, e: Expression, n: nat)
    requires FirstRewrite(rules, e) == Some(e)
    ensures Turns(rules, e, n) == e
    decreases n
  {
    if n == 0 {
    } else {
      StandsStill(rules, e, n - 1);
    }
  }

  lemma NeverEnds(rules: Rules, e: Expression, n: nat)
    requires FirstRewrite(rules, Turns(rules, e, n)) == Some(Turns(rules, e, n))
    ensures !RootEnds(rules, e)
  {
    var t := Turns(rules, e, n);
    forall k: nat
      ensures !EndsAfter(rules, e, k)
    {
      if k <= n {
        TurnsPlus(rules, e, k, n - k);
        assert Turns(rules, Turns(rules, e, k), n - k) == t;
      } else {
        TurnsPlus(rules, e, n, k - n);
        StandsStill(rules, t, k - n);
      }
    }
  }

  lemma MatchAllNeverEnds(rules: Rules, i: nat, e: Expression)
    requires i < |rules| && rules[i].0.IsReference()
    ensures !RootEnds(rules, e)
  {
    forall n: nat
      ensures !EndsAfter(rules, e, n)
    {
      FirstRewriteMeaning(rules, Turns(rules, e, n));
      assert Matches(rules[i].0, Turns(rules, e, n)).Some?;
    }
  }

  // ---------------------------------------------------------------------------
  // One loop

  lemma {:induction false} DecreasingLoopEnds(rules: Rules, e: Expression)
    requires RefFree(e) && LoopDecreases(rules, e)
    ensures RootEnds(rules, e)
    decreases Weight(e)
  {
    NormalizeRootTurn(rules, e);
    if FirstRewrite(rules, e).None? {
    } else {
      var i := FirstExists(rules, e);
      FirstRewriteIs(rules, e, i);
      assert Turns(rules, e, 0) == e;
      RewriteDecreases(rules[i], e);
      var next := FirstRewrite(rules, e).value;
      forall n: nat, k: nat | FirstIs(rules, Turns(rules, next, n), k)
        ensures Decreasing(rules[k])
      {
        assert Turns(rules, next, n) == Turns(rules, e, n + 1);
      }
      DecreasingLoopEnds(rules, next);
    }
  }

  /** The loop ends on a subject exactly if each rule it applies decreases. */
  lemma LoopEndsExactly(rules: Rules, e: Expression)
    requires Tame(rules) && RefFree(e)
    ensures RootEnds(rules, e) <==> LoopDecreases(rules, e)
  {
    if LoopDecreases(rules, e) {
      DecreasingLoopEnds(rules, e);
    }
    if RootEnds(rules, e) {
      forall n: nat, i: nat | FirstIs(rules, Turns(rules, e, n), i)
        ensures Decreasing(rules[i])
      {
        if !Decreasing(rules[i]) {
          IdleRuleNeverEnds(rules, e, n, i);
        }
      }
    }
  }

  lemma IdleRuleNeverEnds(rules: Rules, e: Expression, n: nat, i: nat)
    requires PlacedRules(rules) && RefFree(e) && FirstIs(rules, Turns(rules, e, n), i) && Idle(rules[i])
    ensures !RootEnds(rules, e)
  {
    if rules[i].0.IsReference() {
      MatchAllNeverEnds(rules, i, e);
    } else {
      var t := Turns(rules, e, n);
      TurnsRefFree(rules, e, n);
      FirstRewriteIs(rules, t, i);
      IdentityRuleMakesNoProgress(rules[i].0, t);
      NeverEnds(rules, e, n);
    }
  }

  /** The loop ends on every subject exactly if each rule that is the first to match some subject
      decreases. */
  lemma LoopEndsOnAllExactly(rules: Rules)
    requires Tame(rules)
    ensures (forall e | RefFree(e) :: RootEnds(rules, e)) <==> FirstsDecrease(rules)
  {
    if FirstsDecrease(rules) {
      forall e | RefFree(e)
        ensures RootEnds(rules, e)
      {
        FirstsDecreaseOnTheWay(rules, e);
        DecreasingLoopEnds(rules, e);
      }
    }
    if forall e | RefFree(e) :: RootEnds(rules, e) {
      forall e: Expression, i: nat | RefFree(e) && FirstIs(rules, e, i)
        ensures Decreasing(rules[i])
      {
        LoopEndsExactly(rules, e);
        assert Turns(rules, e, 0) == e;
      }
    }
  }

  lemma FirstsDecreaseOnTheWay(rules: Rules, e: Expression)
    requires PlacedRules(rules) && FirstsDecrease(rules) && RefFree(e)
    ensures LoopDecreases(rules, e)
  {
    forall n: nat, i: nat | FirstIs(rules, Turns(rules, e, n), i)
      ensures Decreasing(rules[i])
    {
      TurnsRefFree(rules, e, n);
    }
  }

  // ---------------------------------------------------------------------------
  // All loops of one call: one for each expression inside the subject

  ghost predicate Inside(x: Expression, e: Expression)
    decreases e
  {
    x == e || InsideItems(x, e.items)
  }

  ghost predicate InsideItems(x: Expression, items: seq<Item>)
    decreases items
  {
    items != [] && (InsideItem(x, items[0]) || InsideItems(x, items[1..]))
  }

  ghost predicate InsideItem(x: Expression, item: Item)
    decreases item
  {
    item.Args? && InsideStatements(x, item.args.items)
  }

  ghost predicate InsideStatements(x: Expression, statements: seq<Statement>)
    decreases statements
  {
    statements != [] && (InsideExpressions(x, statements[0].items) || InsideStatements(x, statements[1..]))
  }

  ghost predicate InsideExpressions(x: Expression, expressions: seq<Expression>)
    decreases expressions
  {
    expressions != [] && (Inside(x, expressions[0]) || InsideExpressions(x, expressions[1..]))
  }

  /** What the loop of a call starts with. */
  ghost function AfterArguments(rules: Rules, e: Expression): Expression {
    Expression(SimplifiedItems(rules, e.items), e.cvrs)
  }

  ghost predicate OneEnds(rules: Rules, x: Expression) {
    RootEnds(rules, AfterArguments(rules, x))
  }

  lemma {:induction false} EndsMeansEachLoop(rules: Rules, e: Expression)
    ensures Ends(rules, e) <==> forall x | Inside(x, e) :: OneEnds(rules, x)
    ensures RefFree(e) ==> forall x | Inside(x, e) :: RefFree(x)
    decreases e
  {
    EndsMeansEachLoopOfItems(rules, e.items);
    assert Inside(e, e);
    assert OneEnds(rules, e) == RootEnds(rules, Expression(SimplifiedItems(rules, e.items), e.cvrs));
    if forall x | Inside(x, e) :: OneEnds(rules, x) {
      forall x | InsideItems(x, e.items)
        ensures OneEnds(rules, x)
      {
        assert Inside(x, e);
      }
    }
  }

  lemma {:induction false} EndsMeansEachLoopOfItems(rules: Rules, items: seq<Item>)
    ensures EndsItems(rules, items) <==> forall x | InsideItems(x, items) :: OneEnds(rules, x)
    ensures RefsOfItems(items) == [] ==> forall x | InsideItems(x, items) :: RefFree(x)
    decreases items
  {
    if items == [] {
    } else {
      EndsMeansEachLoopOfItem(rules, items[0]);
      EndsMeansEachLoopOfItems(rules, items[1..]);
      assert forall x | InsideItem(x, items[0]) || InsideItems(x, items[1..]) :: InsideItems(x, items);
    }
  }

  lemma {:induction false} EndsMeansEachLoopOfItem(rules: Rules, item: Item)
    ensures EndsItem(rules, item) <==> forall x | InsideItem(x, item) :: OneEnds(rules, x)
    ensures RefsOfItem(item) == [] ==> forall x | InsideItem(x, item) :: RefFree(x)
    decreases item
  {
    if item.Args? {
      EndsMeansEachLoopOfStatements(rules, item.args.items);
      assert forall x | InsideStatements(x, item.args.items) :: InsideItem(x, item);
    }
  }

  lemma {:induction false} EndsMeansEachLoopOfStatements(rules: Rules, statements: seq<Statement>)
    ensures EndsStatements(rules, statements) <==> forall x | InsideStatements(x, statements) :: OneEnds(rules, x)
    ensures RefsOfStatements(statements) == [] ==> forall x | InsideStatements(x, statements) :: RefFree(x)
    decreases statements
  {
    if statements == [] {
    } else {
      EndsMeansEachLoopOfExpressions(rules, statements[0].items);
      EndsMeansEachLoopOfStatements(rules, statements[1..]);
      assert forall x | InsideExpressions(x, statements[0].items) || InsideStatements(x, statements[1..]) ::
          InsideStatements(x, statements);
    }
  }

  lemma {:induction false} EndsMeansEachLoopOfExpressions(rules: Rules, expressions: seq<Expression>)
    ensures EndsExpressions(rules, expressions) <==> forall x | InsideExpressions(x, expressions) :: OneEnds(rules, x)
    ensures RefsOfExpressions(expressions) == [] ==> forall x | InsideExpressions(x, expressions) :: RefFree(x)
    decreases expressions
  {
    if expressions == [] {
    } else {
      EndsMeansEachLoop(rules, expressions[0]);
      EndsMeansEachLoopOfExpressions(rules, expressions[1..]);
      assert forall x | Inside(x, expressions[0]) || InsideExpressions(x, expressions[1..]) ::
          InsideExpressions(x, expressions);
    }
  }

  /** A call of `simplified` ends exactly if, in the loop of each expression inside its subject,
      each rule applied decreases. */
  lemma SimplifiedEndsExactly(rules: Rules, e: Expression)
    requires Tame(rules) && RefFree(e)
    ensures Ends(rules, e) <==> forall x | Inside(x, e) :: LoopDecreases(rules, AfterArguments(rules, x))
  {
    EndsMeansEachLoop(rules, e);
    forall x | Inside(x, e)
      ensures OneEnds(rules, x) <==> LoopDecreases(rules, AfterArguments(rules, x))
    {
      SimplifiedItemsRefFree(rules, x.items);
      LoopEndsExactly(rules, AfterArguments(rules, x));
    }
  }

  lemma SimplifiedEnds(rules: Rules, e: Expression)
    requires PlacedRules(rules) && FirstsDecrease(rules) && RefFree(e)
    ensures Ends(rules, e)
  {
    EndsMeansEachLoop(rules, e);
    forall x | Inside(x, e)
      ensures OneEnds(rules, x)
    {
      SimplifiedItemsRefFree(rules, x.items);
      FirstsDecreaseOnTheWay(rules, AfterArguments(rules, x));
      DecreasingLoopEnds(rules, AfterArguments(rules, x));
    }
  }

  lemma AllDecreasingEnds(rules: Rules, e: Expression)
    requires AllDecreasing(rules) && RefFree(e)
    ensures PlacedRules(rules) && Ends(rules, e)
  {
    SimplifiedEnds(rules, e);
  }

  // ---------------------------------------------------------------------------
  // Rules that give back a pattern without references, as in the table of standard names

  predicate Constant(rule: (Expression, Expression)) {
    rule.1 == rule.0 && RefFree(rule.0)
  }

  lemma ConstantIsIdle(rule: (Expression, Expression))
    requires Constant(rule)
    ensures Idle(rule) && Placed(rule.1) && !Decreasing(rule)
  {
    EmptyBare(rule.0);
    RefFreeLastOnlyItems(rule.0.items);
    RefFreePlacedItems(rule.0.items);
  }

  /** Whether the loop always ends can be read off the table: each rule that changes nothing has to
      stand behind one that matches its pattern. */
  lemma EndsUnlessConstantRuleIsFirst(rules: Rules)
    requires forall i | 0 <= i < |rules| :: Decreasing(rules[i]) || Constant(rules[i])
    ensures (forall e | RefFree(e) :: RootEnds(rules, e))
            <==> forall i | 0 <= i < |rules| && Constant(rules[i]) ::
                   exists j | 0 <= j < i :: Matches(rules[j].0, rules[i].0).Some?
  {
    forall i | 0 <= i < |rules| && Constant(rules[i])
      ensures Idle(rules[i]) && Placed(rules[i].1) && !Decreasing(rules[i])
    {
      ConstantIsIdle(rules[i]);
    }
    LoopEndsOnAllExactly(rules);
    if FirstsDecrease(rules) {
      forall i | 0 <= i < |rules| && Constant(rules[i])
        ensures exists j | 0 <= j < i :: Matches(rules[j].0, rules[i].0).Some?
      {
        RefFreeMatch(rules[i].0, rules[i].0, map[], false);
        assert !FirstIs(rules, rules[i].0, i);
      }
    }
    if forall i | 0 <= i < |rules| && Constant(rules[i]) ::
        exists j | 0 <= j < i :: Matches(rules[j].0, rules[i].0).Some?
    {
      forall e: Expression, i: nat | RefFree(e) && FirstIs(rules, e, i)
        ensures Decreasing(rules[i])
      {
        if Constant(rules[i]) {
          RefFreeMatch(rules[i].0, e, map[], false);
          var j :| 0 <= j < i && Matches(rules[j].0, rules[i].0).Some?;
          MatchesWith(rules[j].0, rules[i].0, e.cvrs);
        }
      }
    }
  }

  /** The one such rule of the table, as it is parsed. */
  const FILESYSTEM_PATH := Expression([Text("std::filesystem::path")], [])

  function PathWith(cvrs: Cvrs): Expression {
    Expression(FILESYSTEM_PATH.items, cvrs)
  }

  ghost predicate HasShippedRule(rules: Rules, i: nat) {
    i < |rules| && rules[i] == (FILESYSTEM_PATH, FILESYSTEM_PATH)
    && forall j | 0 <= j < i :: Matches(rules[j].0, FILESYSTEM_PATH).None?
  }

  /** With that rule, and none in front of it that matches, each turn leaves the path as it is. */
  lemma ShippedRuleStandsStill(rules: Rules, i: nat, cvrs: Cvrs, n: nat)
    requires HasShippedRule(rules, i)
    ensures FirstRewrite(rules, PathWith(cvrs)) == Some(PathWith(cvrs)) && Turns(rules, PathWith(cvrs), n) == PathWith(cvrs)
  {
    var p, x := FILESYSTEM_PATH, PathWith(cvrs);
    assert RefFree(p) && RefFree(x) by { assert p.items[1..] == []; }
    ConstantIsIdle(rules[i]);
    RefFreeMatch(p, x, map[], false);
    forall j | 0 <= j < i
      ensures Matches(rules[j].0, x).None?
    {
      MatchesWith(rules[j].0, p, cvrs);
    }
    FirstRewriteIs(rules, x, i);
    IdentityRuleMakesNoProgress(p, x);
    StandsStill(rules, x, n);
  }

  /** So a name that holds the path is never simplified to the end. */
  lemma ShippedRuleNeverEnds(rules: Rules, i: nat, cvrs: Cvrs, e: Expression)
    requires HasShippedRule(rules, i) && Inside(PathWith(cvrs), e)
    ensures !Ends(rules, e)
  {
    var x := PathWith(cvrs);
    assert AfterArguments(rules, x) == x by { assert x.items[1..] == []; }
    ShippedRuleStandsStill(rules, i, cvrs, 0);
    NeverEnds(rules, x, 0);
    EndsMeansEachLoop(rules, e);
    assert !OneEnds(rules, x);
  }
}
