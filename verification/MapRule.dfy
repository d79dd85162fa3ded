/**
 The rule for maps that comes with the tool: the first reference is met again with a level of its
 own, so the key of the pair has to be the key of the map and a `const` behind it.
 */
module MapRule {
  import opened Terms
  import opened Matching
  import opened Lookups
  import opened Printing

  const CONST_LEVEL := CvrLevel(true, false, NONE)

  function Named(id: string, levels: Cvrs): Expression {
    Expression([Reference(id)], levels)
  }

  /** One expression for each argument. */
  function Each(expressions: seq<Expression>): seq<Statement> {
    if expressions == [] then [] else [Statement([expressions[0]])] + Each(expressions[1..])
  }

  /** std::map<key, value, compare, std::allocator<std::pair<first, second>>> */
  function MapName(key: Expression, value: Expression, compare: Expression, first: Expression, second: Expression)
    : Expression
  {
    Template("std::map", Each([key, value, compare, Template("std::allocator", Each([Pair(first, second)]))]))
  }

  function Pair(first: Expression, second: Expression): Expression {
    Template("std::pair", Each([first, second]))
  }

  /** std::map<key, value, compare> */
  function ShortName(key: Expression, value: Expression, compare: Expression): Expression {
    Template("std::map", Each([key, value, compare]))
  }

  const PATTERN := MapName(Named("$1", []), Named("$2", []), Named("$3", []), Named("$1", [CONST_LEVEL]), Named("$2", []))

  const REPLACEMENT := ShortName(Named("$1", []), Named("$2", []), Named("$3", []))

  // ---------------------------------------------------------------------------
  // Terms of this shape, argument by argument

  lemma EachFront(e: Expression, es: seq<Expression>)
    ensures Each([e] + es) == [Statement([e])] + Each(es)
  {
    assert ([e] + es)[1..] == es;
  }

  lemma MatchFront(p: Expression, ps: seq<Expression>, s: Expression, ss: seq<Expression>, refs: Refs)
    requires |ps| == |ss|
    ensures |Each(ps)| == |ps| && |Each(ss)| == |ss| && |Each([p] + ps)| == |Each([s] + ss)|
    ensures MatchStatements(Each([p] + ps), Each([s] + ss), refs) ==
            var head := Match(p, s, refs, true);
            if head.ok then MatchStatements(Each(ps), Each(ss), head.refs) else head
  {
    EachLength(ps);
    EachLength(ss);
    EachFront(p, ps);
    EachFront(s, ss);
    OneMatched(p, s, refs);
    hide Each, Match, MatchExpressions;
    assert ([Statement([p])] + Each(ps))[1..] == Each(ps) && ([Statement([s])] + Each(ss))[1..] == Each(ss);
  }

  lemma {:induction false} EachLength(es: seq<Expression>)
    ensures |Each(es)| == |es|
  {
    if es == [] {
    } else {
      EachLength(es[1..]);
    }
  }

  lemma OneMatched(p: Expression, s: Expression, refs: Refs)
    ensures MatchStatement(Statement([p]), Statement([s]), refs) == Match(p, s, refs, true)
  {
    var head := Match(p, s, refs, true);
    assert [p][1..] == [] && [s][1..] == [];
    assert MatchExpressions([], [], head.refs) == Outcome(true, head.refs);
    assert MatchExpressions([p], [s], refs) == if head.ok then MatchExpressions([], [], head.refs) else head;
  }

  /** Templates of one name match if their arguments do. */
  lemma TemplatesMatch(name: string, ps: seq<Expression>, ss: seq<Expression>, refs: Refs, important: bool)
    requires |ps| == |ss|
    ensures |Each(ps)| == |Each(ss)|
    ensures Match(Template(name, Each(ps)), Template(name, Each(ss)), refs, important) ==
            MatchStatements(Each(ps), Each(ss), refs)
  {
    EachLength(ps);
    EachLength(ss);
    hide Each, MatchStatements;
    var a, b := Template(name, Each(ps)).items, Template(name, Each(ss)).items;
    assert a[1..] == [Angled(Each(ps))] && b[1..] == [Angled(Each(ss))];
    OneItem(Angled(Each(ps)), Angled(Each(ss)), refs);
    assert a[0] == b[0] == Text(name);
    assert MatchItems(a, b, refs) == MatchItems(a[1..], b[1..], refs);
    assert MatchItem(Angled(Each(ps)), Angled(Each(ss)), refs) == MatchStatements(Each(ps), Each(ss), refs);
  }

  lemma OneItem(p: Item, s: Item, refs: Refs)
    ensures MatchItems([p], [s], refs) == MatchItem(p, s, refs)
  {
    var head := MatchItem(p, s, refs);
    assert [p][1..] == [] && [s][1..] == [];
    assert MatchItems([], [], head.refs) == Outcome(true, head.refs);
    assert MatchItems([p], [s], refs) == if head.ok then MatchItems([], [], head.refs) else head;
  }

  lemma ReplaceFront(e: Expression, es: seq<Expression>, refs: Refs)
    ensures ReplaceStatements(Each([e] + es), refs) ==
            [Statement([Replace(e, refs, e.cvrs)])] + ReplaceStatements(Each(es), refs)
  {
    EachFront(e, es);
    hide Each, Replace;
    assert ([Statement([e])] + Each(es))[1..] == Each(es);
  }

  lemma TemplateReplaced(name: string, es: seq<Expression>, refs: Refs)
    ensures Replace(Template(name, Each(es)), refs, []) == Template(name, ReplaceStatements(Each(es), refs))
  {
    hide Each, ReplaceStatements;
    var items := Template(name, Each(es)).items;
    assert items[0] == Text(name) && items[1] == Angled(Each(es));
    assert items[1..] == [items[1]] && items[1..][1..] == [];
    assert ReplaceItems(items[1..], refs) == [ReplaceItem(items[1], refs)] + ReplaceItems([], refs);
    assert ReplaceItem(items[1], refs) == Angled(ReplaceStatements(Each(es), refs));
    assert ReplaceItems(items, refs) == [ReplaceItem(items[0], refs)] + ReplaceItems(items[1..], refs);
  }

  // ---------------------------------------------------------------------------
  // The rule

  lemma Unbound(id: string, s: Expression, refs: Refs)
    requires id !in refs
    ensures Match(Named(id, []), s, refs, true) == Outcome(true, refs[id := s])
  {
  }

  /** Met again, the reference stands for its binding with its own levels behind. */
  lemma Bound(id: string, levels: Cvrs, s: Expression, refs: Refs)
    requires id in refs
    ensures Match(Named(id, levels), s, refs, true) == Outcome(s == Expression(refs[id].items, refs[id].cvrs + levels), refs)
  {
  }

  function Bindings(key: Expression, value: Expression, compare: Expression): Refs {
    map["$1" := key, "$2" := value, "$3" := compare]
  }

  lemma PairMatches(first: Expression, second: Expression, key: Expression, value: Expression, compare: Expression)
    ensures Match(Pair(Named("$1", [CONST_LEVEL]), Named("$2", [])), Pair(first, second), Bindings(key, value, compare), true)
            == Outcome(first == Expression(key.items, key.cvrs + [CONST_LEVEL]) && second == value, Bindings(key, value, compare))
  {
    var refs := Bindings(key, value, compare);
    TemplatesMatch("std::pair", [Named("$1", [CONST_LEVEL]), Named("$2", [])], [first, second], refs, true);
    hide Each, Match;
    assert [Named("$1", [CONST_LEVEL]), Named("$2", [])] == [Named("$1", [CONST_LEVEL])] + [Named("$2", [])];
    assert [first, second] == [first] + [second];
    MatchFront(Named("$1", [CONST_LEVEL]), [Named("$2", [])], first, [second], refs);
    Bound("$1", [CONST_LEVEL], first, refs);
    LastMatched(Named("$2", []), second, refs);
    Bound("$2", [], second, refs);
    assert value.cvrs + [] == value.cvrs;
  }

  lemma LastMatched(p: Expression, s: Expression, refs: Refs)
    ensures |Each([p])| == |Each([s])| && MatchStatements(Each([p]), Each([s]), refs) == Match(p, s, refs, true)
  {
    MatchFront(p, [], s, [], refs);
    assert [p] + [] == [p] && [s] + [] == [s];
    assert Each([]) == [];
  }

  lemma AllocatorMatches(first: Expression, second: Expression, key: Expression, value: Expression, compare: Expression)
    ensures Match(Template("std::allocator", Each([Pair(Named("$1", [CONST_LEVEL]), Named("$2", []))])),
                  Template("std::allocator", Each([Pair(first, second)])), Bindings(key, value, compare), true)
            == Outcome(first == Expression(key.items, key.cvrs + [CONST_LEVEL]) && second == value, Bindings(key, value, compare))
  {
    var refs := Bindings(key, value, compare);
    var p, s := Pair(Named("$1", [CONST_LEVEL]), Named("$2", [])), Pair(first, second);
    hide Match, Pair, Each, Template;
    TemplatesMatch("std::allocator", [p], [s], refs, true);
    LastMatched(p, s, refs);
    PairMatches(first, second, key, value, compare);
  }

  /** A name of this shape is matched exactly if the pair is of the map's key, with `const` behind the
      levels it has, and the map's value; then the allocator is dropped. */
  lemma MapRuleMeans(key: Expression, value: Expression, compare: Expression, first: Expression, second: Expression)
    ensures var matched := Matches(PATTERN, MapName(key, value, compare, first, second));
            && (matched.Some? <==> first == Expression(key.items, key.cvrs + [CONST_LEVEL]) && second == value)
            && (matched.Some? ==> Replace(REPLACEMENT, matched.value, []) == ShortName(key, value, compare))
  {
    MapMatches(key, value, compare, first, second);
    ShortReplaced(key, value, compare);
  }

  /** The first three arguments are bound, whatever the last one is. */
  lemma KeysBind(key: Expression, value: Expression, compare: Expression, p: Expression, s: Expression)
    ensures |Each([Named("$1", []), Named("$2", []), Named("$3", []), p])| == |Each([key, value, compare, s])|
    ensures MatchStatements(Each([Named("$1", []), Named("$2", []), Named("$3", []), p]), Each([key, value, compare, s]), map[])
            == Match(p, s, Bindings(key, value, compare), true)
  {
    var a, b, c := Named("$1", []), Named("$2", []), Named("$3", []);
    var one: Refs := map["$1" := key];
    var two: Refs := map["$1" := key, "$2" := value];
    var three := Bindings(key, value, compare);
    assert map["$1" := key] == one && one["$2" := value] == two && two["$3" := compare] == three;
    Unbound("$1", key, map[]);
    Unbound("$2", value, one);
    Unbound("$3", compare, two);
    hide Match, Each, Named, Bindings, MatchStatements;
    LastMatched(p, s, three);
    EachLength([p]);
    EachLength([s]);
    BoundFront(c, [p], compare, [s], two, three);
    BoundFront(b, [c] + [p], value, [compare] + [s], one, two);
    BoundFront(a, [b] + ([c] + [p]), key, [value] + ([compare] + [s]), map[], one);
    assert [a] + ([b] + ([c] + [p])) == [a, b, c, p] && [key] + ([value] + ([compare] + [s])) == [key, value, compare, s];
  }

  lemma BoundFront(p: Expression, ps: seq<Expression>, s: Expression, ss: seq<Expression>, refs: Refs, later: Refs)
    requires |ps| == |ss| && Match(p, s, refs, true) == Outcome(true, later)
    ensures |Each(ps)| == |Each(ss)| && |Each([p] + ps)| == |Each([s] + ss)|
    ensures MatchStatements(Each([p] + ps), Each([s] + ss), refs) == MatchStatements(Each(ps), Each(ss), later)
  {
    hide Each, Match, MatchStatements;
    MatchFront(p, ps, s, ss, refs);
  }

  lemma MapMatches(key: Expression, value: Expression, compare: Expression, first: Expression, second: Expression)
    ensures Match(PATTERN, MapName(key, value, compare, first, second), map[], false)
            == Outcome(first == Expression(key.items, key.cvrs + [CONST_LEVEL]) && second == value, Bindings(key, value, compare))
  {
    var p := Template("std::allocator", Each([Pair(Named("$1", [CONST_LEVEL]), Named("$2", []))]));
    var s := Template("std::allocator", Each([Pair(first, second)]));
    hide Match, Each, Template, Pair, Bindings, Named;
    AllocatorMatches(first, second, key, value, compare);
    TemplatesMatch("std::map", [Named("$1", []), Named("$2", []), Named("$3", []), p], [key, value, compare, s], map[], false);
    KeysBind(key, value, compare, p, s);
  }

  lemma ShortReplaced(key: Expression, value: Expression, compare: Expression)
    ensures Replace(REPLACEMENT, Bindings(key, value, compare), []) == ShortName(key, value, compare)
  {
    var refs := Bindings(key, value, compare);
    var a, b, c := Named("$1", []), Named("$2", []), Named("$3", []);
    Refilled("$1", refs);
    Refilled("$2", refs);
    Refilled("$3", refs);
    assert Each([]) == [] && ReplaceStatements([], refs) == [];
    TemplateReplaced("std::map", [a, b, c], refs);
    hide Each, Replace, Template, ReplaceStatements;
    assert [c] == [c] + [] && [compare] == [compare] + [];
    ReplaceFront(c, [], refs);
    EachFront(compare, []);
    assert [b, c] == [b] + [c] && [value, compare] == [value] + [compare];
    ReplaceFront(b, [c], refs);
    EachFront(value, [compare]);
    assert [a, b, c] == [a] + [b, c] && [key, value, compare] == [key] + [value, compare];
    ReplaceFront(a, [b, c], refs);
    EachFront(key, [value, compare]);
  }

  lemma Refilled(id: string, refs: Refs)
    requires id in refs
    ensures Replace(Named(id, []), refs, []) == refs[id]
  {
    assert refs[id].cvrs + [] == refs[id].cvrs;
  }

  // ---------------------------------------------------------------------------
  // On which names the rule ends

  lemma {:induction false} EachIsSole(es: seq<Expression>)
    requires forall e | e in es :: Sole(e)
    ensures SoleStatements(Each(es))
  {
    if es == [] {
    } else {
      EachIsSole(es[1..]);
      assert es[0] in es && SoleExpressions([]) && [es[0]][1..] == [];
      assert SoleExpressions([es[0]]);
    }
  }

  lemma TemplateIsSole(name: string, es: seq<Expression>)
    requires forall e | e in es :: Sole(e)
    ensures Sole(Template(name, Each(es)))
  {
    EachIsSole(es);
    hide Each, SoleStatements;
    var items := Template(name, Each(es)).items;
    assert items[1..][1..] == [] && items[1..] == [Angled(Each(es))];
    assert SoleItem(items[0]) && SoleItem(items[1]) && SoleItems([]);
    assert SoleItems(items[1..]);
  }

  lemma RefsFront(e: Expression, es: seq<Expression>)
    ensures RefsOfStatements(Each([e] + es)) == RefsOfItems(e.items) + RefsOfStatements(Each(es))
  {
    EachFront(e, es);
    hide Each, RefsOfItems;
    assert ([Statement([e])] + Each(es))[1..] == Each(es) && [e][1..] == [];
    assert RefsOfExpressions([]) == [] && RefsOfExpressions([e]) == RefsOfItems(e.items) + [];
  }

  lemma RefsOfTemplate(name: string, es: seq<Expression>)
    ensures RefsOfItems(Template(name, Each(es)).items) == RefsOfStatements(Each(es))
  {
    hide Each, RefsOfStatements;
    var items := Template(name, Each(es)).items;
    assert items[1..][1..] == [] && items[1..] == [Angled(Each(es))] && items[0] == Text(name);
    assert RefsOfItem(items[0]) == [] && RefsOfItem(items[1]) == RefsOfStatements(Each(es)) && RefsOfItems([]) == [];
    hide RefsOfItem;
    assert RefsOfItems(items[1..]) == RefsOfItem(items[1]) + [];
  }

  lemma RefsOfName(id: string, levels: Cvrs)
    ensures Sole(Named(id, levels)) && RefsOfItems(Named(id, levels).items) == [id]
  {
    assert [Reference(id)][1..] == [] && RefsOfItems([]) == [];
  }

  lemma FirstRepeats(id: string, between: seq<string>, later: seq<string>)
    ensures !NoRepeat([id] + between + [id] + later, {})
  {
    assert [id] + between + [id] + later == ([id] + between) + ([id] + later);
    NoRepeatConcat([id] + between, [id] + later, {});
    assert id in [id] + between && id in Ids([id] + between);
  }

  /** The rule has references twice, so that there are names, with references in them, on which it
      does not end. */
  lemma MapRuleNeedNotEnd()
    ensures Sole(PATTERN) && exists s :: !MatchEnds(PATTERN, s)
  {
    var a, b, c, first := Named("$1", []), Named("$2", []), Named("$3", []), Named("$1", [CONST_LEVEL]);
    var pair := Pair(first, b);
    var allocator := Template("std::allocator", Each([pair]));
    RefsOfName("$1", []);
    RefsOfName("$2", []);
    RefsOfName("$3", []);
    RefsOfName("$1", [CONST_LEVEL]);
    hide Named, Sole;
    TemplateIsSole("std::pair", [first, b]);
    TemplateIsSole("std::allocator", [pair]);
    TemplateIsSole("std::map", [a, b, c, allocator]);
    PatternRefs(a, b, c, first);
    FirstRepeats("$1", ["$2", "$3"], ["$2"]);
    MatchEndsExactly(PATTERN);
  }

  lemma PatternRefs(a: Expression, b: Expression, c: Expression, first: Expression)
    requires RefsOfItems(a.items) == RefsOfItems(first.items) == ["$1"]
    requires RefsOfItems(b.items) == ["$2"] && RefsOfItems(c.items) == ["$3"]
    ensures RefsOfItems(MapName(a, b, c, first, b).items) == ["$1"] + ["$2", "$3"] + ["$1"] + ["$2"]
  {
    var pair := Pair(first, b);
    var allocator := Template("std::allocator", Each([pair]));
    hide Each, RefsOfItems, Template;
    RefsOfOne("std::allocator", pair);
    RefsOfTwo("std::pair", first, b);
    RefsOfFour("std::map", a, b, c, allocator);
  }

  lemma RefsOfOne(name: string, a: Expression)
    ensures RefsOfItems(Template(name, Each([a])).items) == RefsOfItems(a.items)
  {
    assert Each([]) == [] && RefsOfStatements([]) == [] && [a] + [] == [a];
    hide Each, RefsOfItems, RefsOfStatements, Template;
    RefsOfTemplate(name, [a]);
    RefsFront(a, []);
    assert RefsOfItems(a.items) + [] == RefsOfItems(a.items);
  }

  lemma RefsOfTwo(name: string, a: Expression, b: Expression)
    ensures RefsOfItems(Template(name, Each([a, b])).items) == RefsOfItems(a.items) + RefsOfItems(b.items)
  {
    hide Each, RefsOfItems, RefsOfStatements;
    RefsOfOne(name, b);
    RefsOfTemplate(name, [b]);
    RefsOfTemplate(name, [a] + [b]);
    RefsFront(a, [b]);
    assert [a, b] == [a] + [b];
  }

  lemma RefsOfFour(name: string, a: Expression, b: Expression, c: Expression, d: Expression)
    ensures RefsOfItems(Template(name, Each([a, b, c, d])).items)
            == RefsOfItems(a.items) + (RefsOfItems(b.items) + (RefsOfItems(c.items) + RefsOfItems(d.items)))
  {
    hide Each, RefsOfItems, RefsOfStatements;
    RefsOfTwo(name, c, d);
    RefsOfTemplate(name, [c, d]);
    RefsOfTemplate(name, [a] + ([b] + [c, d]));
    RefsFront(b, [c, d]);
    RefsFront(a, [b] + [c, d]);
    assert [a, b, c, d] == [a] + ([b] + [c, d]);
  }

  // ---------------------------------------------------------------------------
  // How such names are printed

  lemma EachPrinted(e: Expression, es: seq<Expression>, comma: string)
    ensures StatementsStr(Each([e] + es), comma) == comma + Str(e) + StatementsStr(Each(es), ", ")
  {
    EachFront(e, es);
    OnePrinted(e);
    hide Each, Str, ExpressionsStr;
    assert ([Statement([e])] + Each(es))[1..] == Each(es);
  }

  lemma OnePrinted(e: Expression)
    ensures ExpressionsStr([e], "") == Str(e)
  {
    hide Str;
    assert [e][1..] == [];
    assert ExpressionsStr([], " ") == "";
  }

  lemma TemplatePrinted(name: string, es: seq<Expression>)
    ensures Str(Template(name, Each(es))) == name + "<" + StatementsStr(Each(es), "") + ">"
  {
    var items := Template(name, Each(es)).items;
    hide Each, StatementsStr;
    assert items[0] == Text(name) && items[1] == Angled(Each(es));
    assert items[1..] == [items[1]] && items[1..][1..] == [];
    assert ItemStr(items[0]) == name && ItemStr(items[1]) == "<" + StatementsStr(Each(es), "") + ">";
    assert LevelsText([]) == "" && ItemsStr([]) == "";
    hide ItemStr;
    assert ItemsStr(items[1..]) == ItemStr(items[1]) + "";
    assert ItemsStr(items) == name + ("<" + StatementsStr(Each(es), "") + ">" + "");
  }

  lemma PairPrinted(first: Expression, second: Expression)
    ensures Str(Pair(first, second)) == "std::pair<" + (Str(first) + ", " + Str(second)) + ">"
  {
    TemplatePrinted("std::pair", [first, second]);
    EachPrinted(second, [], ", ");
    EachPrinted(first, [second], "");
    assert Each([]) == [] && StatementsStr([], ", ") == "";
    hide Each, Str, StatementsStr, Template;
    assert [first, second] == [first] + [second] && [second] + [] == [second];
    PairText(Str(first), Str(second));
  }

  lemma PairText(a: string, b: string)
    ensures "std::pair" + "<" + ("" + a + (", " + b + "")) + ">" == "std::pair<" + (a + ", " + b) + ">"
  {
    assert "std::pair" + "<" == "std::pair<" && "" + a + (", " + b + "") == a + ", " + b;
  }

  lemma ThreePrinted(a: Expression, b: Expression, c: Expression, later: seq<Expression>)
    ensures StatementsStr(Each([a, b, c] + later), "") ==
            (Str(a) + ", " + Str(b) + ", " + Str(c)) + StatementsStr(Each(later), ", ")
  {
    EachPrinted(c, later, ", ");
    EachPrinted(b, [c] + later, ", ");
    EachPrinted(a, [b] + ([c] + later), "");
    hide Each, Str, StatementsStr;
    assert [a, b, c] + later == [a] + ([b] + ([c] + later));
    ThreeText(Str(a), Str(b), Str(c), StatementsStr(Each(later), ", "));
  }

  lemma ThreeText(a: string, b: string, c: string, later: string)
    ensures "" + a + (", " + b + (", " + c + later)) == (a + ", " + b + ", " + c) + later
  {
  }

  /** Arguments stand between angle brackets, with a comma and a space between them. */
  lemma NamesPrinted(key: Expression, value: Expression, compare: Expression, first: Expression, second: Expression)
    ensures Str(ShortName(key, value, compare)) ==
            "std::map<" + (Str(key) + ", " + Str(value) + ", " + Str(compare)) + ">"
    ensures Str(MapName(key, value, compare, first, second)) ==
            "std::map<" + (Str(key) + ", " + Str(value) + ", " + Str(compare)) + ", std::allocator<std::pair<"
            + (Str(first) + ", " + Str(second)) + ">>>"
  {
    var allocator := Template("std::allocator", Each([Pair(first, second)]));
    assert Each([]) == [] && StatementsStr([], ", ") == "";
    AllocatorPrinted(first, second);
    hide Each, Str, StatementsStr, Pair, Template;
    ThreePrinted(key, value, compare, []);
    assert [key, value, compare] + [] == [key, value, compare];
    TemplatePrinted("std::map", [key, value, compare]);
    ThreePrinted(key, value, compare, [allocator]);
    assert [key, value, compare] + [allocator] == [key, value, compare, allocator];
    EachPrinted(allocator, [], ", ");
    assert [allocator] + [] == [allocator];
    TemplatePrinted("std::map", [key, value, compare, allocator]);
    AllocatorText(Str(key) + ", " + Str(value) + ", " + Str(compare), Str(first) + ", " + Str(second));
  }

  lemma AllocatorPrinted(first: Expression, second: Expression)
    ensures Str(Template("std::allocator", Each([Pair(first, second)]))) ==
            "std::allocator" + "<" + ("" + ("std::pair<" + (Str(first) + ", " + Str(second)) + ">") + "") + ">"
  {
    var pair := Pair(first, second);
    assert Each([]) == [] && StatementsStr([], ", ") == "";
    PairPrinted(first, second);
    hide Each, Str, StatementsStr, Pair, Template;
    EachPrinted(pair, [], "");
    assert [pair] + [] == [pair];
    TemplatePrinted("std::allocator", [pair]);
  }

  lemma AllocatorText(list: string, pair: string)
    ensures list + "" == list && "std::map" + "<" == "std::map<" && "" + pair + "" == pair
    ensures "std::map" + "<" + (list + (", " + ("std::allocator" + "<" + ("" + ("std::pair<" + pair + ">") + "") + ">") + "")) + ">" ==
            "std::map<" + list + ", std::allocator<std::pair<" + pair + ">>>"
  {
    var inner := "std::pair<" + pair + ">";
    assert "" + inner + "" == inner && "std::map" + "<" == "std::map<" && "std::allocator" + "<" == "std::allocator<";
    assert ", " + "std::allocator<" + "std::pair<" == ", std::allocator<std::pair<" && ">" + ">" + ">" == ">>>";
    var text := ", " + ("std::allocator<" + inner + ">");
    assert text + "" == text;
    Unnested("std::map<", list, ", ", "std::allocator<", "std::pair<", pair, ">");
  }

  lemma Unnested(a: string, list: string, b: string, c: string, d: string, pair: string, end: string)
    ensures a + (list + (b + (c + (d + pair + end) + end))) + end == a + list + (b + c + d) + pair + (end + end + end)
  {
  }

  lemma TwoLevels(name: string, a: CvrLevel, b: CvrLevel)
    ensures Str(Expression([Text(name)], [a, b])) == name + LevelText(a) + LevelText(b)
  {
    hide LevelText;
    assert [Text(name)][1..] == [] && [a, b][1..] == [b] && [b][1..] == [];
    assert LevelsText([]) == "" && LevelsText([b]) == LevelText(b) + "";
    assert ItemStr(Text(name)) == name && ItemsStr([]) == "" && ItemsStr([Text(name)]) == name + "";
  }

  lemma LevelParts(isConst: bool, isVolatile: bool, end: Token)
    ensures LevelText(CvrLevel(isConst, isVolatile, end)) ==
            if isConst && isVolatile then " const" + " volatile" + TokenText(end)
            else if isConst then " const" + TokenText(end)
            else if isVolatile then " volatile" + TokenText(end) else TokenText(end)
  {
    hide TokenText;
    assert "" + "" + TokenText(end) == TokenText(end) && " const" + "" == " const" && "" + " volatile" == " volatile";
  }

  lemma WordsPrinted()
    ensures TokenText(CONST) == " const" && TokenText(VOLATILE) == " volatile"
    ensures TokenText(PTR) == "*" && TokenText(REF) == "&" && TokenText(NONE) == ""
  {
  }

  /** Levels as they are written: `int* const`, and a reference to something constant and volatile. */
  lemma LevelsPrinted()
    ensures Str(Expression([Text("int")], [CvrLevel(false, false, PTR), CONST_LEVEL])) == "int* const"
    ensures LevelText(CvrLevel(true, true, REF)) == " const volatile&"
    ensures LevelText(CvrLevel(false, false, CONST)) == " const" && LevelText(CvrLevel(false, false, VOLATILE)) == " volatile"
  {
    hide Str, LevelText, TokenText;
    WordsPrinted();
    TwoLevels("int", CvrLevel(false, false, PTR), CONST_LEVEL);
    LevelParts(false, false, PTR);
    LevelParts(true, false, NONE);
    LevelParts(true, true, REF);
    LevelParts(false, false, CONST);
    LevelParts(false, false, VOLATILE);
    assert " const" + "" == " const" && "int" + "*" + " const" == "int* const";
    assert " const" + " volatile" + "&" == " const volatile&";
  }

  /** The name of a map from pointers: std::map<int*, value, compare, ..<std::pair<int* const, value>>>. */
  lemma PointerKeys(value: Expression, compare: Expression)
    ensures var pointer := CvrLevel(false, false, PTR);
            var key, first := Expression([Text("int")], [pointer]), Expression([Text("int")], [pointer, CONST_LEVEL]);
            var matched := Matches(PATTERN, MapName(key, value, compare, first, value));
            matched.Some? && Replace(REPLACEMENT, matched.value, []) == ShortName(key, value, compare)
  {
    var pointer := CvrLevel(false, false, PTR);
    var key := Expression([Text("int")], [pointer]);
    MapRuleMeans(key, value, compare, Expression([Text("int")], [pointer, CONST_LEVEL]), value);
    assert [pointer] + [CONST_LEVEL] == [pointer, CONST_LEVEL];
  }
}
