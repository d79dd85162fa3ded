# Proofs about the coverage tool

The coverage tool keeps line coverage of a project as a chain of reports, lists it by module and
directory, shows it beside highlighted sources and prints C++ names in a readable form. This project
models the algorithms behind that and proves what they promise. Every loop and every object whose
methods change it is a method or a class here; the functions they are proved against are
specifications, and the lemmas say what these mean.

| files | part of the tool |
|---|---|
| `Terms`, `Matching`, `Lookups`, `Matcher`, `Rewriting`, `LoopEnds`, `NormalForms`, `ShallowRules`, `Printing`, `MapRule` | the term rewriting that simplifies C++ names |
| `Lexing`, `Blocks`, `BlockText` | cutting names into tokens and nesting them by brackets |
| `SpanTree`, `LineBreaking`, `LineTokens`, `Highlighting`, `Doubles`, `HighlightedLines`, `SpanTokens` | from the tokens of a grammar to the spans of each line |
| `Ancestry`, `RevisionNames`, `RevisionRange`, `RangeLog`, `Revisions` | revisions, ranges and the log |
| `CoverageStats`, `ProjectionTree`, `Propagation`, `Prefixes`, `DirectoryTree`, `Standalone`, `Classifying`, `Projection`, `Listings`, `Siblings` | listing a report by modules and directories |
| `RunLength` | line coverage as 31-bit runs |
| `Newlines`, `Digests` | matching a file with a digest, whatever its line ends |
| `Chunks`, `ChunkWindows` | the parts of a file around what was never reached |
| `Quoting`, `CommandLine`, `ArgLength` | Windows command lines |
| `Wrappers`, `Sequences`, `Sorting`, `Strings` | shared helpers |

`dafny verify dfyconfig.toml` checks all of it.

## What the proofs found

Where a property does not hold of the code, the code is kept as it is, and lemmas say when the property
holds; the condition is exact unless noted.

- The table of names that comes with the tool holds a rule that gives its pattern back,
  `std::filesystem::path`. No other rule of the table matches the path, and on a name that
  holds it the loop of `simplified` never ends (`ShippedRuleNeverEnds`). For rules that decrease or change
  nothing the loop ends exactly where each rule it applies decreases (`LoopEndsExactly`, `LoopEndsOnAllExactly`);
  whether it always does can be read off the table, for the loop (`EndsUnlessConstantRuleIsFirst`) and, with shallow
  rules, for whole calls (`CallsEndExactly`).
- A match rebuilds its subject exactly when the pattern is invertible (`RebuildsExactlyWhenInvertible`);
  references before the last expression of a statement, or a first occurrence with levels of its own, are lost.
- On a subject with the name of a reference in it matching need not end: the rule for vectors, whose pattern has
  `$1` twice, never finishes on `std::vector<$1, std::allocator<int>>` (`VectorRuleNeverEnds`). For patterns whose
  references are sole items matching ends on every subject exactly if no reference occurs twice
  (`MatchEndsExactly`); on subjects without such names it always ends. The rule for maps is another that need not (`MapRuleNeedNotEnd`).
- A replacement that brings a redex inside itself is not simplified again. One application brings one in for
  some bindings exactly when the rule is not shallow (`ShallowExactly`). If all rules are shallow, one pass
  yields a normal form; this is one-way, and there are rules for which a second pass changes the result
  (`DeepReplacementLeavesRedex`).
- Propagating totals joins a module that has no name with its only child without a trace; files keep their
  module and path exactly when there is no such module (`PropagateKeepsNamesIff`, `EmptySegmentIsLost`). Without
  one no two modules or directories beside each other share a name (`ListingNamesDiffer`); with one they may
  (`NamelessTwin`), but need not.
- The files of a module whose name starts with the separator are left out exactly when files that match no
  directory are listed (`KeptUnlessLost`, `NamelessModuleIsLost`): the second loop of `add_files` overwrites them.
- The file filter's prefix is taken off a second time from names that were cut off the tree, which is harmless
  exactly if they do not start with it (`ExpandedIsPathIff`, `RepeatedDirectoryIsLost`).
- A single file keeps a slash in front of its name exactly if its directory has no name or ends with a slash
  (`StandaloneNameIsBaseName`); in full it has its path, unless that ends in a slash behind a directory that has a
  name and no slash at its end (`StandaloneExpands`).
- Quoting leaves out two kinds of argument: empty ones disappear, and a tab alone does not cause quotes
  (`CommandLine.RoundTrip`). A program is read back exactly if it has no quote and, when it has a space, does
  not end in a backslash, or else has no tab (`ProgramReadsIff`).
- `arg_length` adds where a run of backslashes starts, not how long it is, although its comments speak of
  doubling the run (`LengthError`, `SpacesAreMisjudged`, `PlainWordsAreMisjudged`).
- Behind the last covered line, the run of uncovered lines is one short of the number of lines (`DecoderEnds`).
- Tokens emitted twice are handed out once only where nothing of another kind was emitted in between for the same
  place: the order of tokens leaves out their kind, so equal ones need not be neighbours. No double is left exactly if no
  token comes again behind another kind of its place (`DoublesAreGone`); `x`, `y`, `x` stay as they are, and
  `x` is shown in itself (`TurnsStayDoubled`, `StackAt`).
- A parent number beyond `size_t` wraps, so that `^18446744073709551617` is taken for the first parent
  (`HugeParentWraps`, `HugeParent`); it counts modulo 2^64 in all cases (`SuffixesAddUp`).
- Near the end of the 32-bit numbers windows wrap around: the chunks are the windows of the marked lines exactly if
  each line is at least four in front of 2^32, and each but the last at least seven (`WindowsExactly`, `LastLineWraps`).
- The LF form of a file matches the digest of the file only if nothing was converted or all lines end alike (`LfFormMatches`).

## Model

| member | source | states |
|---|---|---|
| Matcher.MatchExpression | libs/c++filt/src/expression.cc:157-226 | the loop over the items, with the table of bindings updated in place and bound references matched again through it, computes the result and the table of the match, on any subject on which the match ends |
| Matcher.MatchReference | libs/c++filt/src/expression.cc:160-173 | a reference binds the subject, or is matched as what it is bound to |
| Matcher.MatchArgumentList | libs/c++filt/src/expression.cc:56-85 | the same for argument lists |
| Matcher.MatchOneStatement | libs/c++filt/src/expression.cc:320-336 | the same for statements, where levels count |
| Matcher.MatchSubject | libs/c++filt/src/expression.cc:228-233 | the outermost call: starts without bindings and ignores the outermost levels; wherever it ends, it gives the bindings, and on subjects without references those of the matching relation |
| Lookups.RunIsMatch | libs/c++filt/src/expression.cc:157-226 | on subjects without references matching through the table ends, with one lookup at a time, and is the matching relation that sees no table |
| Lookups.MatchEndsExactly | libs/c++filt/src/expression.cc:157-233 | matching a pattern whose references are sole items ends on every subject, `$` names included, if and only if no reference occurs twice in it |
| Matching.MatchFindsTheSubstitution | libs/c++filt/src/expression.cc:157-233 | a pattern whose references first occur bare matches exactly if some substitution turns it into the subject; the bindings are that substitution cut down to the pattern's references, so it is unique |
| Matching.ReplaceIsInstance | libs/c++filt/src/expression.cc:235-260 | on a pattern with references in last position only, `replace_with` is substitution |
| Matching.RebuildsExactlyWhenInvertible | libs/c++filt/src/expression.cc:235-260 | substituting the bindings of a match gives back the subject if and only if the pattern is invertible |
| Lookups.SelfBoundNeverEnds | libs/c++filt/src/expression.cc:160-173 | a reference bound to its own name leads to itself any number of times |
| Lookups.RepeatNeverEnds | libs/c++filt/src/expression.cc:157-226 | on f<$x, g<other>> the pattern f<$x, g<$x>> binds `$x` to itself and never ends |
| Lookups.VectorRuleNeverEnds | data/c++filt/standard-library.json:30 | so the rule for vectors never ends on `std::vector<$1, std::allocator<int>>` |
| Rewriting.ReplacedTerm | libs/c++filt/src/expression.cc:235-260 | filling in a replacement leaves no reference and adds exactly the weights of what is bound |
| Rewriting.RewriteDecreases | libs/c++filt/src/expression.cc:273-295 | one application of a decreasing rule keeps the term free of references and makes it strictly lighter |
| LoopEnds.LoopEndsExactly | libs/c++filt/src/expression.cc:272-295 | for rules that decrease, change nothing or match everything, the `while (modified)` loop ends on a subject if and only if each rule it applies on the way decreases |
| LoopEnds.LoopEndsOnAllExactly | libs/c++filt/src/expression.cc:272-295 | the loop ends on every subject if and only if each rule that is the first to match some subject decreases |
| LoopEnds.SimplifiedEndsExactly | libs/c++filt/src/expression.cc:262-298 | the same for a whole call, with the loops of all expressions inside the subject |
| LoopEnds.SimplifiedEnds | libs/c++filt/src/expression.cc:262-298 | a call ends on every subject if each rule that is the first to match decreases |
| LoopEnds.EndsMeansEachLoop | libs/c++filt/src/expression.cc:262-298 | a call ends if and only if the loop of each expression inside the subject does |
| LoopEnds.EndsUnlessConstantRuleIsFirst | libs/c++filt/src/expression.cc:271-295 | when all rules decrease or give back a pattern without references, the loop always ends if and only if each of the latter stands behind a rule that matches its pattern |
| LoopEnds.ShippedRuleStandsStill | data/c++filt/standard-library.json:86-88 | with this rule, and none in front of it that matches, each turn of the loop gives the path back unchanged |
| LoopEnds.ShippedRuleNeverEnds | data/c++filt/standard-library.json:86-88 | then a name that holds the path is never simplified to the end |
| LoopEnds.IdentityRuleMakesNoProgress | libs/c++filt/src/expression.cc:273-295 | an invertible pattern as its own replacement rewrites each match to itself |
| Rewriting.ApplyFirst | libs/c++filt/src/expression.cc:273-289 | one turn: the first rule that matches is applied, or the term stays as it is if none does |
| Rewriting.SimplifyRoot | libs/c++filt/src/expression.cc:271-295 | the `while (modified)` loop gives the term at which it ends, wherever it ends |
| Rewriting.SimplifyExpression | libs/c++filt/src/expression.cc:262-298 | wherever its loops end, computes the innermost-first simplification |
| Rewriting.SimplifyArguments | libs/c++filt/src/expression.cc:97-105 | the same for argument lists |
| Rewriting.SimplifyStatement | libs/c++filt/src/expression.cc:348-355 | the same for statements |
| NormalForms.SimplifiedReachable | libs/c++filt/src/expression.cc:262-298 | the result is reached from the input by rule applications in context, and where the loops end no rule matches it at its root |
| NormalForms.NormalMeansNoStep | libs/c++filt/src/expression.cc:262-298 | being normal is the same as having no rewrite step, anywhere in the term |
| ShallowRules.ShallowExactly | libs/c++filt/src/expression.cc:235-260 | a replacement is shallow if and only if no filling of it with normal terms has something below its root that a rule matches |
| ShallowRules.ShallowByHeads | libs/c++filt/src/expression.cc:157-226 | an expression inside a replacement stays unmatched if it differs from each pattern in the number of items or in a text |
| ShallowRules.NestedTemplateIsShallow | libs/c++filt/src/expression.cc:235-260 | so f<g<$x>> is shallow when no pattern looks like g<..> |
| ShallowRules.SimplifiedIsNormal | libs/c++filt/src/expression.cc:262-298 | with shallow rules the result of one pass, where it ends, is normal |
| ShallowRules.CallsEndExactly | libs/c++filt/src/expression.cc:262-298 | with shallow rules that decrease or give back a pattern without references, calls end on every subject if and only if each of the latter stands behind a rule that matches its pattern, or its pattern's own arguments are rewritten |
| ShallowRules.SimplifiedTwice | libs/c++filt/src/expression.cc:262-298 | then no rule applies anywhere in the result, and simplifying it again ends and changes nothing |
| ShallowRules.DeepReplacementLeavesRedex | libs/c++filt/src/expression.cc:262-298 | without that condition a family of decreasing rules leaves a redex that the second pass rewrites |
| Printing.PrintExpression | libs/c++filt/src/expression.cc:107-127 | the loop over the items and the one over the levels print a term: its items in order and then its levels, each with what is constant in front of what is volatile and of the token |
| Printing.PrintArguments | libs/c++filt/src/expression.cc:32-50 | brackets around the arguments, a comma and a space between two |
| Printing.PrintStatement | libs/c++filt/src/expression.cc:300-308 | a space between two expressions |
| Printing.TwoPrinted | libs/c++filt/src/expression.cc:300-308 | two expressions of a statement have one space between them |
| Printing.WithIsBehind | libs/c++filt/include/c++filt/expression.hh:99-103 | a term with more levels is printed as the term and then those levels, in their order |
| Printing.InstanceIsFilled | libs/c++filt/src/expression.cc:235-260 | substitution is filling in text: what is printed is the pattern as printed, with the text of each binding in the place of its reference |
| Printing.RewriteRefills | libs/c++filt/src/expression.cc:228-260 | a subject that matches is printed as the pattern with the texts of its bindings filled in, and the result as the replacement with the same texts; the levels behind stay |
| Printing.AgainMeans | libs/c++filt/src/expression.cc:160-173 | a reference met again matches the items of its binding, with the levels of the binding and then those of the occurrence, and nothing else |
| MapRule.MapRuleMeans | data/c++filt/standard-library.json:40 | the rule for maps matches a name of its shape if and only if the pair is of the key, with `const` behind the levels of the key, and the value; then it drops the allocator |
| MapRule.PointerKeys | data/c++filt/standard-library.json:40 | so `int*` keys, with pairs of `int* const`, are simplified |
| MapRule.NamesPrinted | data/c++filt/standard-library.json:40 | the two names as they are printed |
| MapRule.LevelsPrinted | libs/c++filt/src/expression.cc:120-124 | `int* const` and ` const volatile&`, level by level |
| MapRule.MapRuleNeedNotEnd | data/c++filt/standard-library.json:40 | as its references come twice, there are names with references in them on which matching the rule does not end |
| Lexing.OperatorsAreATable | libs/c++filt/src/parser.cc:12-25 | no operator holds a blank, and each character that ends a word is an operator of its own |
| Lexing.NeverFallsThrough | libs/c++filt/src/parser.cc:249-272 | the search through the operators always finds one |
| Lexing.LexConserves | libs/c++filt/src/parser.cc:218-274 | a lexeme is exactly what is taken off the text, a run of blanks becoming one space |
| Lexing.LexemesConserve | libs/c++filt/src/parser.cc:218-274 | all lexemes together are the text with blanks collapsed |
| Lexing.CollapsedMeans | libs/c++filt/src/parser.cc:223-229 | collapsing keeps all characters but the six blanks of `isspace`, and leaves single spaces between them |
| Lexing.LongestTaken | libs/c++filt/src/parser.cc:12-25 | of the operators that a text starts with the longest is taken |
| Lexing.WordsAreWhole | libs/c++filt/src/parser.cc:231-241 | a word goes on up to a blank or an operator |
| Lexing.NoWordIsAToken | libs/c++filt/src/parser.cc:237-243 | no word spells a token: `const` and `volatile` are tokens |
| Lexing.TokensAreRead | libs/c++filt/src/parser.cc:248-263 | the text of each token that is no word is read as that token |
| Blocks.Parser.Next | libs/c++filt/src/parser.cc:218-274 | takes the next lexeme off the front of `data`; at least one character of a non-empty text |
| Blocks.Parser.NextBlock | libs/c++filt/src/parser.cc:296-356 | the recursive loop, with adjacent words appended in place, builds the pieces up to the closing token and leaves `data` behind it |
| Blocks.Parser.AddPiece | libs/c++filt/src/parser.cc:300-352 | one turn of that loop |
| BlockText.BuildConserves | libs/c++filt/src/parser.cc:296-356 | a closed block ends where the stack of open brackets is back where it was, and holds the text up to there; one left open holds the rest of the text and lacks the closing brackets |
| BlockText.TextIsConserved | libs/c++filt/src/parser.cc:296-356 | the text of the tree is the input with blanks collapsed and one closer for each bracket left open, found by a scan with a stack; it is the input itself if and only if none is left open |
| BlockText.BlockFrom | libs/c++filt/src/parser.cc:296-360 | the same for a parser over the operators of C++; every block inside is closed by the bracket that belongs to the one that opened it and has arguments if and only if that is `(` or `<` |
| BlockText.BuildIsWell | libs/c++filt/src/parser.cc:296-356 | at every depth: brackets that open stand at the start of a block only, with the right one at its end, words are never next to each other, and the block has arguments if and only if it is opened by `(` or `<` |
| BlockText.ToArgs | libs/c++filt/src/parser.cc:72-95 | cuts at commas: no item holds one; the items joined with commas are the tokens, the last item being what is behind the last comma; if that is nothing, or there are no tokens, no item is made of it |
| SpanTree.From | libs/hilite/lighter/src/lighter.cc:189-218 | the stack turns the visible tokens into a tree whose preorder is the token list, each node inside its parent's end |
| SpanTree.CloseEarlier | libs/hilite/lighter/src/lighter.cc:199-204 | the popping loop closes exactly the nodes that end before the token, and moves no token |
| SpanTree.NodeSpans | libs/hilite/lighter/src/lighter.cc:152-187 | the loop over the children yields text and nested spans, cleaned up at each level |
| SpanTree.CleanupKeepsText | libs/hilite/lighter/src/hilite/lighter.hh:95-102 | dropping empty spans changes no text |
| SpanTree.SpansPartition | libs/hilite/lighter/src/lighter.cc:152-187 | the text of a disjoint tree partitions its node, and each byte is labelled by the path to it |
| SpanTree.LineSpans | libs/hilite/lighter/src/lighter.cc:148-219 | the text leaves partition the line if and only if the visible tokens are nested; then each byte is shown under exactly the kinds that cover it, outermost first |
| SpanTokens.CleanupLeavesNone | libs/hilite/lighter/src/hilite/lighter.hh:95-102 | no empty span is left, at any depth |
| SpanTokens.LineReads | libs/hilite/lighter/src/lighter.cc:152-187 | the spans of a line read back are its visible tokens, each with its own extent and kind, in order, but for those without a byte |
| LineBreaking.BreakToken | libs/hilite/hilite/src/hilite.cc:18-33 | cuts one token at the terminators |
| LineBreaking.BreakLines | libs/hilite/hilite/src/hilite.cc:35-58 | cuts all tokens in one pass over tokens and terminators |
| LineBreaking.PiecesAt | libs/hilite/hilite/src/hilite.cc:18-33 | on each byte of a line a token leaves exactly its part of that line, and nothing where it does not cover the byte |
| LineTokens.BrokenAreParts | libs/hilite/hilite/src/hilite.cc:35-58 | each piece is the part of a token on one line |
| LineTokens.BrokenAt | libs/hilite/hilite/src/hilite.cc:35-58 | on each byte the pieces are the parts of the tokens that cover it, in the order of the tokens |
| LineTokens.SweepKeepsAll | libs/hilite/hilite/src/hilite.cc:85-130 | the single forward sweep gives each piece to one line and drops none |
| LineTokens.SweepDelivers | libs/hilite/hilite/src/hilite.cc:85-130 | each line gets only pieces that lie on it, and on its bytes all pieces there are |
| Highlighting.GrammarResult.Emit | libs/hilite/hilite/include/hilite/hilite_impl.hh:43-52 | a newline is stored as a terminator, anything else as a token |
| Highlighting.GrammarResult.ProduceLines | libs/hilite/hilite/src/hilite.cc:64-131 | sorting, cutting, measuring and sweeping hand out the specified lines, and the tokens are gone |
| Highlighting.GrammarResult.MeasureLines | libs/hilite/hilite/src/hilite.cc:72-83 | the sizes of terminators are overwritten by the lengths of the lines in front of them, as the same entries are read |
| Highlighting.MergeLine | libs/hilite/hilite/src/hilite.cc:87-122 | takes the leading pieces that end on the line and extends the last token for adjacent whitespace |
| Highlighting.ShiftLine | libs/hilite/hilite/src/hilite.cc:124-127 | counts positions from the start of the line, in place |
| Highlighting.MergedApart | libs/hilite/hilite/src/hilite.cc:105-122 | no whitespace is left right behind other whitespace |
| Doubles.EndlinesOnce | libs/hilite/hilite/src/hilite.cc:65-66 | line ends come out by ascending offset, each offset there is just once |
| Doubles.PlaceKeeps | libs/hilite/hilite/src/hilite.cc:12-16 | at each place the tokens come out as they were emitted there, and of equal ones in a row only one |
| Doubles.DoublesAreGone | libs/hilite/hilite/src/hilite.cc:65-66 | no token is left twice if and only if no token is emitted again behind one of another kind at its place |
| Doubles.TurnsStayDoubled | libs/hilite/hilite/include/hilite/hilite.hh:59-64 | two kinds emitted in turns at one place, where the first one stays twice |
| HighlightedLines.LineKeepsCoverage | libs/hilite/hilite/src/hilite.cc:64-131 | tokens fit their line, and a byte is covered by a kind in its line if and only if it was covered by it in the file |
| HighlightedLines.LineKeepsKinds | libs/hilite/hilite/src/hilite.cc:64-131 | nested tokens stay sorted and nested within each line, and each byte keeps the kinds that cover it in order |
| HighlightedLines.StackAt | libs/hilite/hilite/src/hilite.cc:64-66 | a byte shows each raw token that covers it once, outermost first, if and only if none of them is emitted again behind another kind at its place |
| HighlightedLines.NestedMeans | libs/hilite/hilite/src/hilite.cc:64-66 | the visible tokens are nested if and only if any two raw ones are apart or one inside the other |
| HighlightedLines.NoPieceDropped | libs/hilite/hilite/src/hilite.cc:85-130 | the groups handed to the lines are, one after the other, all pieces |
| HighlightedLines.HighlightLine | libs/hilite/lighter/src/lighter.cc:226-232 | a line's spans partition it and show the kinds that cover each byte in the whole file; where tokens are not emitted in turns, a byte shows each raw token that covers it just once; read back they are the visible tokens of the line that hold a byte, and no span is empty |
| HighlightedLines.Highlight | libs/hilite/lighter/src/lighter.cc:221-232 | the same for all lines of a file, from the grammar's tokens to the spans |
| Ancestry.ChainEnds | libs/cov-api/src/cov/revparse.cc:35-49 | in an acyclic store a chain of parents ends after at most one step more than there are objects |
| RevisionRange.MeetingPoint | libs/cov-api/src/cov/revparse.cc:107-135 | the lockstep walk with its two sets ends, and finds the first id on the chain of `to` that is on the chain of `from`, or zero if there is none |
| RevisionRange.ChainsMeet | libs/cov-api/src/cov/revparse.cc:115-132 | ids met in lockstep with nothing shared before are the nearest common ones |
| Revisions.Revs.LocateRange | libs/cov-api/src/cov/revparse.cc:102-136 | moves `from` to that id, and leaves a range with an end at zero alone |
| RangeLog.Navigate | libs/cov-rt/src/show_range.cc:200-217 | walks from `to` until `from`, the root, an object that cannot be shown or the limit |
| RangeLog.LogIsRange | libs/cov-rt/src/show_range.cc:200-217 | behind `locate_range` the log has an n-th entry, the n-th ancestor, if and only if the limit allows it and all ids up to it can be shown and are reached from the end but not from the start |
| RangeLog.RangeMeaning | libs/cov-api/src/cov/revparse.cc:83-101 | `A..B` shows each ancestor-or-self of B that is none of A, once, in parent order, and nothing else |
| RangeLog.LimitIsPrefix | libs/cov-rt/src/show_range.cc:205-208 | a limit of n shows the first n entries of the unlimited log |
| RevisionNames.GetNumber | libs/cov-api/src/cov/revparse.cc:60-70 | reads a run of digits as a number modulo 2^64; a missing number is one |
| RevisionNames.CountParents | libs/cov-api/src/cov/revparse.cc:198-231 | the loop over the suffixes adds up their distances modulo 2^64, or refuses the text |
| RevisionNames.ParseSingle | libs/cov-api/src/cov/revparse.cc:195-273 | the outcome, with error and id, of a revision |
| RevisionNames.SuffixesAddUp | libs/cov-api/src/cov/revparse.cc:202-270 | on a base that names a report any spelling of `^` and `~` suffixes gives the ancestor at the sum of their distances, or zero past the root; a second parent is not found |
| RevisionNames.EqualSums | libs/cov-api/src/cov/revparse.cc:202-270 | two spellings with equal sums name the same report |
| RevisionNames.OneStep | libs/cov-api/src/cov/revparse.cc:60-70 | a mark without a number is one step: `^` and `~` name the parent; `^0` is the report itself, `^2` is not found |
| RevisionNames.NamesResolve | libs/cov-api/src/cov/revparse.cc:232-273 | a name is that of a reference, or else of an object, with the errors in each case |
| RevisionNames.InvalidText | libs/cov-api/src/cov/revparse.cc:226-230 | each text is a base, suffixes and a rest; it is invalid, and the id left alone, if and only if there is a rest behind possible suffixes |
| RevisionNames.HugeParentWraps | libs/cov-api/src/cov/revparse.cc:60-70 | a number that is 2^64 + 1 wraps to the first parent |
| RevisionNames.HugeParent | libs/cov-api/src/cov/revparse.cc:60-70 | "18446744073709551617" is such a number |
| Revisions.Revs.Parse | libs/cov-api/src/cov/revparse.cc:138-193 | splits at the first two dots, fills a missing end with HEAD, wants reports at both ends, and locates the range; in `a..b`, with either end left out for HEAD, `b` is where it ends and `a` where `from` is located from; all error cases and what they leave in the fields |
| Revisions.RangeReads | libs/cov-api/src/cov/revparse.cc:138-193 | what `a..b` stands for, end by end, and which error counts when several could |
| Revisions.Log | libs/cov-rt/src/show_range.cc:281-294 | parsing a range and walking it: what `a..b` shows is reached from b and not from a, is in parent order and can be shown; without a limit it is all of that, and with an error nothing |
| CoverageStats.TotalIsCappedSum | libs/cov-api/include/cov/io/types.hh:323-329 | each counter of a total is the true sum, or the largest 32-bit number if that is less |
| CoverageStats.TotalOfPermutation | libs/cov-api/include/cov/projection.hh:27-30 | a total does not depend on the order of the entries |
| ProjectionTree.AddFileLeaves | libs/cov-api/src/cov/projection.cc:97-113 | adding a file adds exactly one leaf, under the full path |
| ProjectionTree.AddModuleLeaves | libs/cov-api/src/cov/projection.cc:67-95 | adding a module adds exactly its files, each under the module's chain |
| ProjectionTree.ModuleTrailSpellsName | libs/cov-api/src/cov/projection.cc:83-94 | the chain spells the module's name, but for one separator at its end |
| DirectoryTree.DirEntry.AddFile | libs/cov-api/src/cov/projection.cc:97-113 | grows the children in place as the specification does |
| DirectoryTree.DirEntry.AddModule | libs/cov-api/src/cov/projection.cc:67-95 | grows the children in place as the specification does |
| DirectoryTree.DirEntry.AddLevel | libs/cov-api/src/cov/projection.cc:53-65 | finds the child of that kind and name or appends one |
| DirectoryTree.DirEntry.Propagate | libs/cov-api/src/cov/projection.cc:183-207 | totals and joins in place, bottom up |
| DirectoryTree.DirEntry.TakeOverOnlyChild | libs/cov-api/src/cov/projection.cc:193-213 | joins the names and takes the grandchildren |
| DirectoryTree.DirEntry.SwapDirectoryWithChildren | libs/cov-api/src/cov/projection.cc:215-239 | takes the place of single directories, whose names move to what they hold |
| Propagation.PropagatedNormalises | libs/cov-api/src/cov/projection.cc:183-207 | the files stay, each node's total is that of its files, and no node has a single child of its own kind |
| Propagation.PropagateKeepsNamesIff | libs/cov-api/src/cov/projection.cc:198-206 | all files keep their chain of modules and their path, in order, if and only if no module without a name is joined |
| Propagation.CutOffKeepsTotal | libs/cov-api/src/cov/projection.cc:215-239 | cutting single directories off keeps the files and the total |
| Classifying.ModulesProjection | libs/cov-api/src/cov/projection.cc:388-412 | a directory belongs to a listed module or is filtered out exactly as the module filter says |
| Classifying.DirsMean | libs/cov-api/src/cov/projection.cc:12-21 | a slash at the end of a listed directory is no part of its name |
| Classifying.ListedNameMeans | libs/cov-api/src/cov/projection.cc:404-408 | a module below the filter is listed up to the end of its next segment; the filter itself and a last segment are listed as they are |
| Classifying.MatchMeans | libs/cov-api/src/cov/projection.cc:127-163 | a directory matches itself and what is behind its slash, by its length and the slash, and nothing else |
| Classifying.Classify | libs/cov-api/src/cov/projection.cc:127-163 | a file is filtered out iff a filtered directory matches with a strictly longer prefix than every module directory; else it goes to the first module by name of those whose match is longest, or is unmatched |
| Classifying.VerdictsExclude | libs/cov-api/src/cov/projection.cc:127-163 | no other verdict fits |
| Projection.AddFilesTo | libs/cov-api/src/cov/projection.cc:115-181 | sorts the files, takes out those that matched, and grows the tree by the modules by name, each with its kept files |
| Projection.AddModules | libs/cov-api/src/cov/projection.cc:178-180 | the loop over `module_data` adds each module that has files once, in ascending order |
| Projection.AddedModulesHold | libs/cov-api/src/cov/projection.cc:178-180 | which adds exactly the kept files, each in its place |
| Projection.BuildTree | libs/cov-api/src/cov/projection.cc:326-330 | the tree of a listing is the modules by name with their files, and holds exactly the kept files, each under the path that, behind the filter's prefix, is its name; a path of its own is shown if and only if its file is due and not lost to the module without a name |
| Projection.TrimmedIsPath | libs/cov-api/src/cov/projection.cc:75-76 | the filter's prefix and a file's path are its name; without a filter the path is the name |
| Projection.KeptLeavesAreFiles | libs/cov-api/src/cov/projection.cc:75-76 | each kept file below the filter has a leaf whose path, with the prefix in front, is its name, and each leaf is of such a file |
| Projection.KeptUnlessLost | libs/cov-api/src/cov/projection.cc:165-180 | by directories and names: a file is kept if and only if it is not filtered out, some module or the lack of a module filter asks for it, and it is not of the module without a name while another file matches nothing |
| Projection.LeadingSeparatorIsNameless | libs/cov-api/src/cov/projection.cc:398-409 | without a module filter a module whose name starts with the separator is listed without a name |
| Projection.NamelessModuleIsLost | libs/cov-api/src/cov/projection.cc:165-174 | with a module `/x` of directory `d`, and files `d/f` and `e`, the first is due and lost |
| Listings.Project | libs/cov-api/src/cov/projection.cc:315-367 | the grown tree has each kept file once under its module and path, which behind the filter's prefix is its name; the listed entries are, by kind and name and with their names in full, the top of that tree after propagation, which is compressed, has exact totals and shows the same files in the same places if and only if no module without a name is joined; their totals are those of exactly the kept files; or they are the one file the filter names |
| Listings.ListTree | libs/cov-api/src/cov/projection.cc:326-333 | the same for a listing that is not about one file |
| Listings.ListEntries | libs/cov-api/src/cov/projection.cc:348-366 | each child of the root once, with its name in full; modules, then directories, then files, each by name |
| Listings.LinesMean | libs/cov-api/src/cov/projection.cc:348-366 | any such listing has modules in front of directories in front of files, each by name, and each name in full behind the prefix of its own filter |
| Listings.ProjectionMeans | libs/cov-api/src/cov/projection.cc:375-386 | a file is taken as often as the report has it if it is the filter or starts with its prefix, and else not |
| Listings.ProjectionInOrder | libs/cov-api/src/cov/projection.cc:375-386 | in the order of the report |
| Listings.StandaloneMeans | libs/cov-api/src/cov/projection.cc:247-250 | the listing is about one file if and only if just one file of the report is taken by the filter, and the filter is its name |
| Prefixes.PrefixesMeans | libs/cov-api/include/cov/projection.hh:60-72 | a filter takes itself and what is behind its separator, and an empty one everything; a separator at its end makes no difference |
| Listings.PropagatedListing | libs/cov-api/src/cov/projection.cc:332-333 | the listing is compressed, its totals exact, and each kept file is shown under its module and path if and only if no module without a name is joined, for which clean module names are enough |
| Listings.StandaloneNameIsBaseName | libs/cov-api/src/cov/projection.cc:335-346 | a single file is listed under the last component of its path, with a slash in front exactly if its directory has no name or ends with one |
| Listings.StandaloneExpands | libs/cov-api/src/cov/projection.cc:335-355 | and in full under its path, if and only if that does not end in one slash behind a directory with a name |
| Listings.ExpandedIsPathIff | libs/cov-api/src/cov/projection.cc:232-238 | a name that was cut off is shown in full as its path if and only if it does not start with the filter's prefix again |
| Listings.RepeatedDirectoryIsLost | libs/cov-api/src/cov/projection.cc:215-239 | below the filter `a`, files of `a/a` are listed as files of `a` |
| Siblings.ListingNamesDiffer | libs/cov-api/src/cov/projection.cc:53-65 | on each level of a listing no two modules and no two directories share a name, as long as no module without a name is joined |
| Siblings.ListedNamesDiffer | libs/cov-api/src/cov/projection.cc:215-239 | nor do those that are listed, unless the file filter's prefix is taken off one of them |
| Siblings.NamelessTwin | libs/cov-api/src/cov/projection.cc:198-206 | the modules `a//b` and `a/b` are listed as two modules `b` of `a` |
| Listings.EmptySegmentIsLost | libs/cov-api/src/cov/projection.cc:198-206 | the files of a module with an empty segment end up under another name |
| RunLength.VisitLines | libs/cov-rt/src/report.cc:221-251 | the loop with its chunks and wrapping differences makes exactly the specified calls of the visitor |
| RunLength.FileInfo.ExpandCoverage | libs/cov-rt/src/report.cc:254-277 | the runs, the number of lines, and the counts of covered and hit lines of the map |
| RunLength.FromCoverage | libs/cov-core/src/cvg_info.cc:28-44 | the decoding loop, with its wrapping line counter |
| RunLength.WriteAndRead | libs/cov-rt/src/report.cc:254-277 | the loops of both sides together: what is written is read back, with hits cut off |
| RunLength.RoundTrip | libs/cov-core/src/cvg_info.cc:28-44 | decoding the runs of any map and any number of lines gives the map with hits cut off at 2^31-1, line 0 included |
| RunLength.RunsAreLines | libs/cov-rt/src/report.cc:221-251 | taken apart line by line, the runs give each covered line its hits, cut off, and nothing to any other |
| RunLength.TotalMeans | libs/cov-rt/src/report.cc:221-251 | the number of lines is that of the file, unless coverage goes further, and then the last covered line |
| RunLength.EveryMapRoundTrips | libs/cov-core/src/cvg_info.cc:28-44 | the same for a map as such: it has a listing by ascending line |
| RunLength.EncodedCounts | libs/cov-rt/src/report.cc:264-274 | covered runs are the entries of the map, hit runs those with hits |
| RunLength.DecoderEnds | libs/cov-rt/src/report.cc:241-249 | the decoder ends one short of the number of lines when uncovered lines follow, and on the last line otherwise |
| Newlines.BackToCrlf | libs/cov-rt/src/report.cc:152-196 | converting to LF and back is exact if and only if all lines end in one CR and LF |
| Newlines.BackToLf | libs/cov-rt/src/report.cc:152-196 | converting to CRLF and back is exact if and only if no line ended in CRLF |
| Newlines.ConvertsLines | libs/cov-rt/src/report.cc:152-196 | both conversions change nothing but the ends of lines |
| Digests.ParseDigest | libs/cov-rt/src/report.cc:138-148 | reads the digest from hexadecimal of either case, or refuses the text, which it does if and only if it has another length or another character |
| Digests.HexSpells | libs/cov-rt/src/report.cc:103-133 | a digest written in hexadecimal is read back |
| Digests.DigitsAreHex | libs/cov-rt/src/report.cc:103-131 | the sixteen digits as written, and as read in either case |
| Digests.OnlyHexCounts | libs/cov-rt/src/report.cc:103-131 | no other character is read as a digit |
| Digests.FeedCrlf | libs/cov-rt/src/report.cc:152-174 | the chunks fed to the digest add up to the text with bare LF as CRLF |
| Digests.FeedLf | libs/cov-rt/src/report.cc:176-194 | the chunks fed to the digest add up to the text with CRLF as LF |
| Digests.Match | libs/cov-rt/src/report.cc:135-197 | the verdict, from the digests of the text and its two conversions; barring a collision among these, a file is accepted if and only if the reported content is the file or one of its conversions, and matches exactly if and only if it is the file |
| Digests.LfFormMatches | libs/cov-rt/src/report.cc:135-197 | barring collisions, the LF form of a file matches the report of the file if and only if nothing was converted or all lines end alike; the other way round it always does |
| Chunks.FunctionIterator.VisitBefore | libs/cov-api/include/cov/report.hh:244-248 | visits the functions in front of a line, in order |
| Chunks.FunctionIterator.VisitAt | libs/cov-api/include/cov/report.hh:250-257 | skips functions in front of the line and visits those at it |
| Chunks.FunctionIterator.VisitRest | libs/cov-api/include/cov/report.hh:259-263 | visits the others |
| Chunks.CoverageInfo.MarkLine | libs/cov-core/src/cvg_info.cc:54-62 | adds the window of a line to the last chunk or starts a new one |
| Chunks.CoverageInfo.VisitLine | libs/cov-core/src/cvg_info.cc:70-76 | visits, in order, the functions up to a line, and marks those never called and the line |
| Chunks.CoverageInfo.FindChunks | libs/cov-core/src/cvg_info.cc:50-78 | visits all functions once, in their order, whatever their lines, and marks lines and functions as they come up in one pass over both; a line is marked if and only if it was never hit or a function never called starts on it |
| Chunks.MarksMean | libs/cov-core/src/cvg_info.cc:70-77 | a line is marked if and only if coverage has it with no hits or a function that starts there has no calls |
| ChunkWindows.MarksAreAll | libs/cov-core/src/cvg_info.cc:70-77 | each function never called and each uncovered line is marked once, whatever the order of the functions |
| ChunkWindows.MarksSorted | libs/cov-core/src/cvg_info.cc:70-77 | with functions by line the marks are in ascending order |
| ChunkWindows.ChunksAreWindows | libs/cov-core/src/cvg_info.cc:54-62 | each window is inside one chunk, chunks start and end with windows, have no stretch more than two lines from the window in front of it, and lie more than three lines apart |
| ChunkWindows.WindowsExactly | libs/cov-core/src/cvg_info.cc:54-62 | for marked lines in ascending order that is so if and only if no window wraps around at 2^32 and only the last line is within six of it |
| ChunkWindows.FindWindows | libs/cov-core/src/cvg_info.cc:50-78 | the same for the chunks that `find_chunks` leaves behind, with the same condition; then a line is shown if and only if it is at most three lines from one that was never reached, or between two of these that are at most nine apart |
| ChunkWindows.WindowsShow | libs/cov-core/src/cvg_info.cc:54-62 | chunks that are the windows of some lines show exactly what is around these |
| ChunkWindows.LastLineWraps | libs/cov-core/src/cvg_info.cc:54-57 | on the last 32-bit number a window ends before it starts |
| Quoting.AppendArg | libs/cov-rt/src/win32.cc:40-92 | the loop over the characters, with its state of pending backslashes, appends the quoted form |
| Quoting.ReadsEscaped | libs/cov-rt/src/win32.cc:56-91 | by the rules of CommandLineToArgvW, what is quoted is read back character by character, up to the closing quote |
| CommandLine.RoundTrip | libs/cov-rt/src/win32.cc:40-92 | an argument list is read back unchanged if and only if no argument is empty and each one with a tab also has a space or a quote |
| CommandLine.JoinedReads | libs/cov-rt/src/win32.cc:336-342 | what any argument list is read back as: quoted arguments as they are, others as their words |
| CommandLine.JoinedEnds | libs/cov-rt/src/win32.cc:337-343 | each argument has one space in front, and the line ends in one |
| CommandLine.ProgramReads | libs/cov-rt/src/win32.cc:328-334 | the program is read back, but for doubled backslashes at the end of one with spaces, and the arguments start behind it |
| CommandLine.ProgramReadsIff | libs/cov-rt/src/win32.cc:328-334 | any program is read back if and only if it has no quote, and does not end in a backslash if it has a space, and has no tab if it has none; then the arguments start behind it |
| CommandLine.LineReads | libs/cov-rt/src/win32.cc:317-345 | the line as a whole is read back if and only if the program and each argument survive |
| CommandLine.CommandLine | libs/cov-rt/src/win32.cc:317-345 | the whole line, with or without a script engine, and when it is read back as it was meant |
| ArgLength.Length | libs/cov-rt/src/win32.cc:99-129 | what the loops of the predictor add up to |
| ArgLength.QuotedLength | libs/cov-rt/src/win32.cc:40-92 | how many characters the quoted form has |
| ArgLength.LengthError | libs/cov-rt/src/win32.cc:99-129 | the difference between the two: for each run of backslashes the distance of its start from the front less its length |
| ArgLength.SpacesAreMisjudged | libs/cov-rt/src/win32.cc:99-129 | without quotes the prediction is right if and only if there is no space, or just half of the argument is backslashes at its end |
| ArgLength.PlainWordsAreMisjudged | libs/cov-rt/src/win32.cc:99-129 | two words of one letter: 8 predicted, 5 written |

## Left out

- Turning blocks into statements (`Block::to_statement`): it moves const, pointer and reference tokens to the end
  of an expression and carries levels over to the next one, so a printed name is not the parsed one; conservation stops at the blocks.
- Lookups.MatchEndsExactly: takes patterns whose references are sole items, as the program binds a reference only there; a
  reference beside other items matches nothing, so the match fails when it gets there.
- Rewriting.SimplifyExpression: takes replacements with references at the end of statements, since others leave `$` names in the
  result, which is matched again; what matching does there is covered by `Lookups`.
- Rewriting.SimplifyRoot: as `SimplifyExpression`.
- Rewriting.SimplifyArguments: as `SimplifyExpression`.
- Rewriting.SimplifyStatement: as `SimplifyExpression`.
- LoopEnds.LoopEndsExactly: takes rules that decrease, give an invertible pattern back or match everything, as all rules of the
  table that comes with the tool do; rules that reorder or grow terms are only covered where they are never the first to match.
- LoopEnds.LoopEndsOnAllExactly: as `LoopEndsExactly`.
- LoopEnds.SimplifiedEndsExactly: as `LoopEndsExactly`.
- ShallowRules.CallsEndExactly: takes shallow rules, each of which decreases or gives back a pattern without references.
- ShallowRules.SimplifiedIsNormal: one direction; a rule that is not shallow may never meet the bindings that make its redex.
- ShallowRules.SimplifiedTwice: as `SimplifiedIsNormal`.
- Siblings.ListingNamesDiffer: one direction; a joined module without a name does no harm where nothing beside it has the new name.
- CommandLine.ProgramReads: takes programs without quotes; `ProgramReadsIff` covers all.
- Spellings of tokens: the text of a block uses `const` and `volatile` as they were read; with the space that `str_from_token` puts in front they are in `Printing`.
- Printing.RewriteRefills: takes patterns and replacements as `RebuildsExactlyWhenInvertible` does, and subjects without references.
- RunLength.RunsAreLines: takes maps without line 0, which is no line of a file; `RoundTrip` covers it.
- Directory entries as objects of their own: a `vector<dir_entry>` holds its entries by value, so the children of a
  `DirEntry` are values here, and a child is an object only while it is changed.
- The order of `std::unordered_set`: loops over directories take elements in any order.
- Counts of functions read from the repository (`recalc_functions`), and the order of listed entries of the same kind and name.
- The sizes that are only used to reserve memory.
- ChunkWindows.FindWindows: takes functions sorted by line, because merging their aliases, which sorts them, is not part of this model.
- Revisions.Revs.LocateRange: takes a store without cycles, because parents are written before their children; in a cycle the walk need not end.
- Symbolic references, abbreviated ids and HEAD are looked up in maps; how the repository resolves them is not part of this model.
- File system, git, compression, processes, terminal and HTML output, argument parsing, translations and the Python tools.
- The C++ grammar of the highlighter, which calls combinators whose headers are not part of this model; `Grammatical` is what its tokens have to meet.
- Conversions between UTF-8 and wide characters on the way to a command line.
