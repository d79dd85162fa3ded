/**
 The terms of the name simplifier (`libs/c++filt`): an expression is a list of items
 followed by const/volatile/pointer levels, an argument list holds statements, and a
 statement holds expressions.  A rule's pattern may also hold `$x` references.
 */
module Terms {

  datatype Token =
    | NONE | SPACE | COMMA | COLON | HASH | SCOPE | PTR | REF | REF_REF | CONST | VOLATILE
    | OPEN_ANGLE_BRACKET | CLOSE_ANGLE_BRACKET | OPEN_PAREN | CLOSE_PAREN
    | OPEN_CURLY | CLOSE_CURLY | OPEN_BRACKET | CLOSE_BRACKET

  datatype CvrLevel = CvrLevel(hasConst: bool, hasVolatile: bool, levelEnd: Token)

  type Cvrs = seq<CvrLevel>

  datatype Item = Text(text: string) | Reference(id: string) | Args(args: ArgumentList)

  datatype ArgumentList = ArgumentList(start: Token, stop: Token, items: seq<Statement>)

  datatype Statement = Statement(items: seq<Expression>)

  datatype Expression = Expression(items: seq<Item>, cvrs: Cvrs) {
    /** The same expression with further levels merged behind its own. */
    function With(external: Cvrs): Expression {
      this.(cvrs := cvrs + external)
    }

    /** The only shape in which a reference stands for an expression. */
    predicate IsReference() {
      |items| == 1 && items[0].Reference?
    }
  }

  type Refs = map<string, Expression>

  // ---------------------------------------------------------------------------
  // The references of a term, in the order in which matching meets them

  function RefsOfItems(items: seq<Item>): seq<string> {
    if items == [] then [] else RefsOfItem(items[0]) + RefsOfItems(items[1..])
  }

  function RefsOfItem(item: Item): seq<string> {
    match item
    case Text(_) => []
    case Reference(id) => [id]
    case Args(args) => RefsOfStatements(args.items)
  }

  function RefsOfStatements(statements: seq<Statement>): seq<string> {
    if statements == [] then [] else RefsOfExpressions(statements[0].items) + RefsOfStatements(statements[1..])
  }

  function RefsOfExpressions(expressions: seq<Expression>): seq<string> {
    if expressions == [] then [] else RefsOfItems(expressions[0].items) + RefsOfExpressions(expressions[1..])
  }

  predicate RefFree(e: Expression) {
    RefsOfItems(e.items) == []
  }

  function Ids(refs: seq<string>): set<string> {
    set id | id in refs
  }

  /** `b` keeps every binding of `a`. */
  ghost predicate Extends(a: Refs, b: Refs) {
    forall id | id in a :: id in b && b[id] == a[id]
  }

  /** Equality of expressions, with the outermost levels compared only when they are important. */
  predicate Same(a: Expression, b: Expression, important: bool) {
    a.items == b.items && (important ==> a.cvrs == b.cvrs)
  }

  // ---------------------------------------------------------------------------
  // Substitution, stated once for every position of a term

  const UNBOUND := [Text("?")]

  function Instance(p: Expression, refs: Refs): Expression {
    if p.IsReference() then
      var id := p.items[0].id;
      if id in refs then refs[id].With(p.cvrs) else Expression(UNBOUND, p.cvrs)
    else
      Expression(ItemInstances(p.items, refs), p.cvrs)
  }

  function ItemInstances(items: seq<Item>, refs: Refs): seq<Item> {
    if items == [] then [] else [ItemInstance(items[0], refs)] + ItemInstances(items[1..], refs)
  }

  function ItemInstance(item: Item, refs: Refs): Item {
    match item
    case Text(_) => item
    case Reference(_) => item
    case Args(args) => Args(ArgumentList(args.start, args.stop, StatementInstances(args.items, refs)))
  }

  function StatementInstances(statements: seq<Statement>, refs: Refs): seq<Statement> {
    if statements == [] then []
    else [Statement(ExpressionInstances(statements[0].items, refs))] + StatementInstances(statements[1..], refs)
  }

  function ExpressionInstances(expressions: seq<Expression>, refs: Refs): seq<Expression> {
    if expressions == [] then []
    else [Instance(expressions[0], refs)] + ExpressionInstances(expressions[1..], refs)
  }

  // Substitution looks only at the bindings of the term's own references.

  lemma {:induction false} InstanceStable(p: Expression, a: Refs, b: Refs)
    requires Extends(a, b) && Ids(RefsOfItems(p.items)) <= a.Keys
    ensures Instance(p, a) == Instance(p, b)
  {
    if p.IsReference() {
      assert p.items[0].id in Ids(RefsOfItems(p.items));
    } else {
      ItemInstancesStable(p.items, a, b);
    }
  }

  lemma {:induction false} ItemInstancesStable(items: seq<Item>, a: Refs, b: Refs)
    requires Extends(a, b) && Ids(RefsOfItems(items)) <= a.Keys
    ensures ItemInstances(items, a) == ItemInstances(items, b)
  {
    if items == [] {
    } else {
      ItemInstanceStable(items[0], a, b);
      ItemInstancesStable(items[1..], a, b);
    }
  }

  lemma {:induction false} ItemInstanceStable(item: Item, a: Refs, b: Refs)
    requires Extends(a, b) && Ids(RefsOfItem(item)) <= a.Keys
    ensures ItemInstance(item, a) == ItemInstance(item, b)
  {
    if item.Args? {
      StatementInstancesStable(item.args.items, a, b);
    }
  }

  lemma {:induction false} StatementInstancesStable(statements: seq<Statement>, a: Refs, b: Refs)
    requires Extends(a, b) && Ids(RefsOfStatements(statements)) <= a.Keys
    ensures StatementInstances(statements, a) == StatementInstances(statements, b)
  {
    if statements == [] {
    } else {
      ExpressionInstancesStable(statements[0].items, a, b);
      StatementInstancesStable(statements[1..], a, b);
    }
  }

  lemma {:induction false} ExpressionInstancesStable(expressions: seq<Expression>, a: Refs, b: Refs)
    requires Extends(a, b) && Ids(RefsOfExpressions(expressions)) <= a.Keys
    ensures ExpressionInstances(expressions, a) == ExpressionInstances(expressions, b)
  {
    if expressions == [] {
    } else {
      InstanceStable(expressions[0], a, b);
      ExpressionInstancesStable(expressions[1..], a, b);
    }
  }
}
