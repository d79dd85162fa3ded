/**
 Writing a simplified name as text (`str`), and what matching and replacing mean for the text: a
 match fills the pattern's references in, and a replacement is filled in with the same texts.
 */
module Printing {
  import opened Sequences
  import opened Terms
  import opened Matching
  import opened Lexing

  // ---------------------------------------------------------------------------
  // The text of a term

  /** How a token is printed: the words stand apart from what is in front of them. */
  function TokenText(token: Token): string {
    if token == CONST || token == VOLATILE then " " + Spelling(token) else Spelling(token)
  }

  function LevelText(level: CvrLevel): string {
    (if level.hasConst then " const" else "") + (if level.hasVolatile then " volatile" else "")
    + TokenText(level.levelEnd)
  }

  function LevelsText(levels: Cvrs): string {
    if levels == [] then "" else LevelText(levels[0]) + LevelsText(levels[1..])
  }

  function Str(e: Expression): string
    decreases e
  {
    ItemsStr(e.items) + LevelsText(e.cvrs)
  }

  function ItemsStr(items: seq<Item>): string
    decreases items
  {
    if items == [] then "" else ItemStr(items[0]) + ItemsStr(items[1..])
  }

  function ItemStr(item: Item): string
    decreases item
  {
    match item
    case Text(text) => text
    case Reference(id) => id
    case Args(args) => ArgumentsStr(args)
  }

  function ArgumentsStr(args: ArgumentList): string
    decreases args
  {
    TokenText(args.start) + StatementsStr(args.items, "") + TokenText(args.stop)
  }

  /** Statements with commas between them; `comma` goes in front of the first one. */
  function StatementsStr(statements: seq<Statement>, comma: string): string
    decreases statements
  {
    if statements == [] then ""
    else comma + ExpressionsStr(statements[0].items, "") + StatementsStr(statements[1..], ", ")
  }

  function ExpressionsStr(expressions: seq<Expression>, space: string): string
    decreases expressions
  {
    if expressions == [] then "" else space + Str(expressions[0]) + ExpressionsStr(expressions[1..], " ")
  }

  method PrintExpression(e: Expression) returns (result: string)
    ensures result == Str(e)
    decreases e
  {
    hide ItemsUpto, ItemsStr, ItemStr, LevelsText;
    result := "";
    NoItemYet(e.items);
    for i := 0 to |e.items|
      invariant ItemsUpto(result, e.items, i)
    {
      NextItem(result, e.items, i);
      result := PrintItem(result, e.items[i]);
    }
    NoItemLeft(result, e.items);
    result := PrintLevels(result, e.cvrs);
  }

  /** What is printed of the items. */
  ghost predicate ItemsUpto(result: string, items: seq<Item>, i: nat) {
    i <= |items| && result + ItemsStr(items[i..]) == ItemsStr(items)
  }

  lemma NoItemYet(items: seq<Item>)
    ensures ItemsUpto("", items, 0)
  {
    assert items[0..] == items;
  }

  lemma NextItem(result: string, items: seq<Item>, i: nat)
    requires ItemsUpto(result, items, i) && i < |items|
    ensures ItemsUpto(result + ItemStr(items[i]), items, i + 1)
  {
    hide ItemStr;
    assert items[i..][1..] == items[i + 1..];
    Associative(result, ItemStr(items[i]), ItemsStr(items[i + 1..]));
  }

  lemma NoItemLeft(result: string, items: seq<Item>)
    requires ItemsUpto(result, items, |items|)
    ensures result == ItemsStr(items)
  {
    assert items[|items|..] == [];
  }

  method PrintItem(front: string, item: Item) returns (result: string)
    ensures result == front + ItemStr(item)
    decreases item
  {
    match item {
      case Text(text) => result := front + text;
      case Reference(id) => result := front + id;
      case Args(args) =>
        var text := PrintArguments(args);
        result := front + text;
    }
  }

  method PrintLevels(front: string, levels: Cvrs) returns (result: string)
    ensures result == front + LevelsText(levels)
  {
    hide LevelsUpto, LevelsText, LevelText;
    result := front;
    NoLevelYet(front, levels);
    for i := 0 to |levels|
      invariant LevelsUpto(front, result, levels, i)
    {
      NextLevel(front, result, levels, i);
      result := PrintLevel(result, levels[i]);
    }
    NoLevelLeft(front, result, levels);
  }

  method PrintLevel(front: string, level: CvrLevel) returns (result: string)
    ensures result == front + LevelText(level)
  {
    hide TokenText;
    result := front;
    if level.hasConst {
      result := result + " const";
    }
    if level.hasVolatile {
      result := result + " volatile";
    }
    result := result + TokenText(level.levelEnd);
  }

  ghost predicate LevelsUpto(front: string, result: string, levels: Cvrs, i: nat) {
    i <= |levels| && result + LevelsText(levels[i..]) == front + LevelsText(levels)
  }

  lemma NoLevelYet(front: string, levels: Cvrs)
    ensures LevelsUpto(front, front, levels, 0)
  {
    assert levels[0..] == levels;
  }

  lemma NextLevel(front: string, result: string, levels: Cvrs, i: nat)
    requires LevelsUpto(front, result, levels, i) && i < |levels|
    ensures LevelsUpto(front, result + LevelText(levels[i]), levels, i + 1)
  {
    hide LevelText;
    assert levels[i..][1..] == levels[i + 1..];
    Associative(result, LevelText(levels[i]), LevelsText(levels[i + 1..]));
  }

  lemma NoLevelLeft(front: string, result: string, levels: Cvrs)
    requires LevelsUpto(front, result, levels, |levels|)
    ensures result == front + LevelsText(levels)
  {
    assert levels[|levels|..] == [];
  }

  method PrintArguments(args: ArgumentList) returns (result: string)
    ensures result == ArgumentsStr(args)
    decreases args
  {
    hide StatementsUpto, StatementsStr, ExpressionsStr, TokenText;
    var comma := "";
    result := TokenText(args.start);
    NoStatementYet(result, args.items);
    for i := 0 to |args.items|
      invariant StatementsUpto(TokenText(args.start), result, args.items, i, comma)
    {
      NextStatement(TokenText(args.start), result, args.items, i, comma);
      result := result + comma;
      comma := ", ";
      var text := PrintStatement(args.items[i]);
      result := result + text;
    }
    NoStatementLeft(TokenText(args.start), result, args.items, comma);
    result := result + TokenText(args.stop);
  }

  ghost predicate StatementsUpto(front: string, result: string, statements: seq<Statement>, i: nat, comma: string) {
    i <= |statements| && result + StatementsStr(statements[i..], comma) == front + StatementsStr(statements, "")
  }

  lemma NoStatementYet(front: string, statements: seq<Statement>)
    ensures StatementsUpto(front, front, statements, 0, "")
  {
    assert statements[0..] == statements;
  }

  lemma NextStatement(front: string, result: string, statements: seq<Statement>, i: nat, comma: string)
    requires StatementsUpto(front, result, statements, i, comma) && i < |statements|
    ensures StatementsUpto(front, result + comma + ExpressionsStr(statements[i].items, ""), statements, i + 1, ", ")
  {
    hide ExpressionsStr;
    assert statements[i..][1..] == statements[i + 1..];
    var text, later := ExpressionsStr(statements[i].items, ""), StatementsStr(statements[i + 1..], ", ");
    assert result + (comma + text + later) == (result + comma + text) + later;
  }

  lemma NoStatementLeft(front: string, result: string, statements: seq<Statement>, comma: string)
    requires StatementsUpto(front, result, statements, |statements|, comma)
    ensures result == front + StatementsStr(statements, "")
  {
    assert statements[|statements|..] == [];
  }

  method PrintStatement(statement: Statement) returns (result: string)
    ensures result == ExpressionsStr(statement.items, "")
    decreases statement
  {
    hide ExpressionsUpto, ExpressionsStr, Str;
    var space := "";
    result := "";
    NoExpressionYet(statement.items);
    for i := 0 to |statement.items|
      invariant ExpressionsUpto(result, statement.items, i, space)
    {
      NextExpression(result, statement.items, i, space);
      result := result + space;
      space := " ";
      var text := PrintExpression(statement.items[i]);
      result := result + text;
    }
    NoExpressionLeft(result, statement.items, space);
  }

  ghost predicate ExpressionsUpto(result: string, expressions: seq<Expression>, i: nat, space: string) {
    i <= |expressions| && result + ExpressionsStr(expressions[i..], space) == ExpressionsStr(expressions, "")
  }

  lemma NoExpressionYet(expressions: seq<Expression>)
    ensures ExpressionsUpto("", expressions, 0, "")
  {
    assert expressions[0..] == expressions;
  }

  lemma NextExpression(result: string, expressions: seq<Expression>, i: nat, space: string)
    requires ExpressionsUpto(result, expressions, i, space) && i < |expressions|
    ensures ExpressionsUpto(result + space + Str(expressions[i]), expressions, i + 1, " ")
  {
    hide Str;
    assert expressions[i..][1..] == expressions[i + 1..];
    var text, later := Str(expressions[i]), ExpressionsStr(expressions[i + 1..], " ");
    assert result + (space + text + later) == (result + space + text) + later;
  }

  lemma NoExpressionLeft(result: string, expressions: seq<Expression>, space: string)
    requires ExpressionsUpto(result, expressions, |expressions|, space)
    ensures result == ExpressionsStr(expressions, "")
  {
    assert expressions[|expressions|..] == [];
  }

  /** Two expressions of one statement have a space between them. */
  lemma TwoPrinted(a: Expression, b: Expression)
    ensures ExpressionsStr([a, b], "") == Str(a) + " " + Str(b)
  {
    assert [a, b][1..] == [b] && [b][1..] == [];
    hide Str;
    assert ExpressionsStr([b], " ") == " " + Str(b) + "";
  }

  // ---------------------------------------------------------------------------
  // Further levels are written behind the ones that are there

  lemma {:induction false} LevelsConcat(a: Cvrs, b: Cvrs)
    ensures LevelsText(a + b) == LevelsText(a) + LevelsText(b)
  {
    if a == [] {
      assert a + b == b;
    } else {
      assert (a + b)[1..] == a[1..] + b && (a + b)[0] == a[0];
      LevelsConcat(a[1..], b);
      Associative(LevelText(a[0]), LevelsText(a[1..]), LevelsText(b));
    }
  }

  lemma WithIsBehind(e: Expression, levels: Cvrs)
    ensures Str(e.With(levels)) == Str(e) + LevelsText(levels)
  {
    LevelsConcat(e.cvrs, levels);
    Associative(ItemsStr(e.items), LevelsText(e.cvrs), LevelsText(levels));
  }

  // ---------------------------------------------------------------------------
  // The text of a pattern with the texts of its bindings filled in

  function Filled(p: Expression, refs: Refs): string
    decreases p
  {
    if p.IsReference() then
      (if p.items[0].id in refs then Str(refs[p.items[0].id]) else "?") + LevelsText(p.cvrs)
    else FilledItems(p.items, refs) + LevelsText(p.cvrs)
  }

  function FilledItems(items: seq<Item>, refs: Refs): string
    decreases items
  {
    if items == [] then "" else FilledItem(items[0], refs) + FilledItems(items[1..], refs)
  }

  function FilledItem(item: Item, refs: Refs): string
    decreases item
  {
    match item
    case Text(text) => text
    case Reference(id) => id
    case Args(args) => TokenText(args.start) + FilledStatements(args.items, "", refs) + TokenText(args.stop)
  }

  function FilledStatements(statements: seq<Statement>, comma: string, refs: Refs): string
    decreases statements
  {
    if statements == [] then ""
    else comma + FilledExpressions(statements[0].items, "", refs) + FilledStatements(statements[1..], ", ", refs)
  }

  function FilledExpressions(expressions: seq<Expression>, space: string, refs: Refs): string
    decreases expressions
  {
    if expressions == [] then ""
    else space + Filled(expressions[0], refs) + FilledExpressions(expressions[1..], " ", refs)
  }

  /** Substitution writes the text of each binding in the place of its reference. */
  lemma {:induction false} InstanceIsFilled(p: Expression, refs: Refs)
    ensures Str(Instance(p, refs)) == Filled(p, refs)
    decreases p
  {
    if p.IsReference() {
      var id := p.items[0].id;
      if id in refs {
        WithIsBehind(refs[id], p.cvrs);
      } else {
        assert UNBOUND[1..] == [];
      }
    } else {
      ItemInstancesAreFilled(p.items, refs);
    }
  }

  lemma {:induction false} ItemInstancesAreFilled(items: seq<Item>, refs: Refs)
    ensures ItemsStr(ItemInstances(items, refs)) == FilledItems(items, refs)
    decreases items
  {
    if items == [] {
    } else {
      ItemInstanceIsFilled(items[0], refs);
      ItemInstancesAreFilled(items[1..], refs);
      assert ItemInstances(items, refs)[1..] == ItemInstances(items[1..], refs);
    }
  }

  lemma {:induction false} ItemInstanceIsFilled(item: Item, refs: Refs)
    ensures ItemStr(ItemInstance(item, refs)) == FilledItem(item, refs)
    decreases item
  {
    if item.Args? {
      StatementInstancesAreFilled(item.args.items, "", refs);
    }
  }

  lemma {:induction false} StatementInstancesAreFilled(statements: seq<Statement>, comma: string, refs: Refs)
    ensures StatementsStr(StatementInstances(statements, refs), comma) == FilledStatements(statements, comma, refs)
    decreases statements
  {
    if statements == [] {
    } else {
      ExpressionInstancesAreFilled(statements[0].items, "", refs);
      StatementInstancesAreFilled(statements[1..], ", ", refs);
      assert StatementInstances(statements, refs)[1..] == StatementInstances(statements[1..], refs);
    }
  }

  lemma {:induction false} ExpressionInstancesAreFilled(expressions: seq<Expression>, space: string, refs: Refs)
    ensures ExpressionsStr(ExpressionInstances(expressions, refs), space) == FilledExpressions(expressions, space, refs)
    decreases expressions
  {
    if expressions == [] {
    } else {
      InstanceIsFilled(expressions[0], refs);
      ExpressionInstancesAreFilled(expressions[1..], " ", refs);
      assert ExpressionInstances(expressions, refs)[1..] == ExpressionInstances(expressions[1..], refs);
    }
  }

  /** One application of a rule: with the same texts filled in, the name read as the pattern, and now
      it reads as the replacement; the levels behind the name stay. */
  lemma RewriteRefills(rule: (Expression, Expression), s: Expression)
    requires Bare(rule.0, {}) && LastOnly(rule.1) && RefFree(s)
    requires !rule.0.IsReference() && !rule.1.IsReference() && Matches(rule.0, s).Some?
    ensures var refs := Matches(rule.0, s).value;
            && Str(s) == FilledItems(rule.0.items, refs) + LevelsText(s.cvrs)
            && Str(Replace(rule.1, refs, s.cvrs)) == FilledItems(rule.1.items, refs) + LevelsText(s.cvrs)
  {
    var refs := Matches(rule.0, s).value;
    MatchFindsTheSubstitution(rule.0, s);
    ItemInstancesAreFilled(rule.0.items, refs);
    ReplaceItemsIsInstance(rule.1.items, refs);
    ItemInstancesAreFilled(rule.1.items, refs);
  }

  // ---------------------------------------------------------------------------
  // What a reference stands for when it is met again

  /** The subject is the binding with the levels of this occurrence behind the binding's own. */
  lemma AgainMeans(p: Expression, s: Expression, refs: Refs)
    requires p.IsReference() && p.items[0].id in refs
    ensures var bound := refs[p.items[0].id];
            Match(p, s, refs, true).ok <==> s.items == bound.items && s.cvrs == bound.cvrs + p.cvrs
    ensures Match(p, s, refs, true).refs == refs
  {
  }
}
