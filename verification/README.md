# noam, modelled and verified

noam is a C++20 parser-combinator library. This project models its parsers, its looping and backtracking
combinators, its coroutine front end, the recursive JSON parser and printer built on it, and the benchmark's
four list summers, and proves how they behave on every text.

## How the model is laid out

- `Text`, `Values`, `Outcomes`: texts, the values parsers produce (with `std::map` as a list of entries in
  strictly increasing key order), and what running a parser yields: success with a rest and a value, failure,
  or divergence, together with the number of calls of the recursive parser made on the way.
- `Scanners`: the character-level parsers as functions on text: the two string automata, literals, booleans,
  integers. A `char` is one byte.
- `Chains`: the greedy loop shared by `sequence`, `parse_map` and `fold_left`.
- `Combinators`: parser expressions (`Expr`, one constructor for each combinator) and their meaning `Run`;
  `Laws`: how fused, specialised and composed forms relate; `Recursion`: `recurse` ties the knot.
- `Windows`, `Machine`: the library as it runs. A `state` is a nullable window (begin, end) into a character
  buffer; results encode failure in a null state or an empty optional; loops update the state in place. A
  parameter that the source passes by reference is returned as a result. Every method is proved to compute
  what `Run` says.
- `JsonSyntax`, `JsonParser`, `JsonGrammar`, `JsonCost`: `parse_value` and `parse_json`, a grammar of concrete
  syntax trees after sections 2 to 5 of RFC 8259, and the proof that the parser accepts exactly that grammar,
  with a bound on recursive calls. `JsonPrinter`, `JsonLayout`, `JsonRoundTrip`, `JsonMachine`: the printer, its
  text line by line, and printing followed by parsing.
- `Decimal`: decimal integers as an instance of the number format the JSON results are stated for.
- `Coroutines`, `Promises`: coroutine bodies cut at their awaits, the promise and awaiter as a step machine and
  as an object, and monadic sequencing.
- `Summers`, `Accumulator`, `Baseline`: the four benchmark programs, and how far their running sums can get.

Numbers in JSON are read by `std::from_chars` for `double` and written by the fmt library; neither is part of
this model. The JSON results hold for every `NumberFormat` that obeys stated laws: a successful read consumes
text that looks like a number and is a full number by itself, a full number is read whole before a delimiter,
and what is printed reads back. `Decimal.LongsLawful` shows the laws can be met. Integers follow section
20.19.3 of the C++20 standard ([charconv.from.chars]): an optional minus, the longest run of digits, failure
when there is no digit or the number does not fit the type.

## Where a promise turned out to have a condition

- An empty object is printed as `[]` (src/include/json_value.hpp:93-94), so it comes back as an empty array.
  `JsonRoundTrip.RoundTrip` gives the exact condition for a value to survive printing and parsing,
  `JsonRoundTrip.EmptyObjectIsLost` the smallest value that does not.
- `view_parser` takes any quote directly after a backslash as escaped, whatever the number of backslashes
  before it; `string_parser` reads two backslashes as a pair. `Scanners.StringAndViewExact` gives the exact
  condition on a text for the two to succeed alike, `Scanners.StringAndViewCanDisagree` texts where they do
  not.
- `string_parser` looks at the byte after its window when the last escape ends the window
  (include/noam/util/intrinsic_types.hpp:181). If that byte is a quote it succeeds although the window holds no
  closing quote, and the window it leaves begins one past its own end. `Windows.ScanString` says so, and that
  it does what the window's text says on every other window; `Windows.StringCanOverrun` is such a window.
- `add_w_fold` reads its first number as a `long`, the other summers as an `int`: `Summers.FoldAgrees` gives
  the exact condition, `Summers.FoldCanDisagree` a text where it fails.
- The running sum of `add_w_fold` starts anywhere in the range of `long`, so it can leave that range at once
  (`Accumulator.FoldCanOverflow`). `Accumulator.FoldFitsExactly` gives the exact condition on the first number
  and the number of characters after it; `Accumulator.SumsFitExactly` gives the exact length, 47,244,640,278
  characters, up to which the other summers cannot.
- `add_w_baseline` skips only spaces around commas: `Baseline.BaselineAgrees` gives the exact condition,
  `Baseline.BaselineCanDisagree` a text where it fails.

## Model

| member | source | states |
|---|---|---|
| Windows.StartsWith | include/noam/state.hpp:124-135 | the comparison loop answers true exactly when the window's text begins with the prefix |
| Windows.CheckAndUpdate | include/noam/util/literal.hpp:18-51 | a literal matches exactly when the text begins with it; the state moves past it then and stays put otherwise |
| Windows.CheckAny | include/noam/util/intrinsic_types.hpp:60-106 | of several literals the first that matches moves the state; if none does the state is unchanged |
| Windows.ZeroOrMoreChars | include/noam/util/intrinsic_types.hpp:108-117 | the loop stops where the longest run of characters of the set ends |
| Windows.CountChars | include/noam/util/intrinsic_types.hpp:119-136 | same stop, and the count is the length of that run |
| Windows.ScanBool | include/noam/util/intrinsic_types.hpp:138-148 | reads `true` or `false` as the specification does, and the window left begins right after |
| Windows.ScanView | include/noam/util/intrinsic_types.hpp:197-219 | the in-place loop returns the view and window of the view automaton, or fails when it does |
| Windows.ScanString | include/noam/util/intrinsic_types.hpp:150-187 | the decoding loop returns the string and window of the string automaton, or fails when it does, on every window except one whose last escape ends it and that a quote follows: there it succeeds with the decoded text and a window beginning one past its end |
| Windows.StringCanOverrun | include/noam/util/intrinsic_types.hpp:181-183 | a window of that kind exists: its text holds no closing quote |
| Text.SkipCharsExact | include/noam/util/intrinsic_types.hpp:108-117 | the run skipped is the only way to cut a text into characters of the set and text starting outside it |
| JsonSyntax.WhitespaceIsBlank | include/noam/intrinsics.hpp:90 | the whitespace skipped is code points 0x20, 0x09, 0x0A and 0x0D, the four of section 2 of RFC 8259, and no other; the grammar below is written with these code points |
| Scanners.LiteralParse | include/noam/util/intrinsic_types.hpp:96-106 | the first literal that is a prefix is consumed, and no more, with the constant as value; it fails when none is |
| Scanners.ViewBodyExact | include/noam/util/intrinsic_types.hpp:200-218 | the view is w and the remainder r exactly when the text is w, a quote, r, with every quote in w directly after a backslash and no backslash at its end |
| Scanners.ViewParseSucceeds | include/noam/intrinsics.hpp:127 | `parse_string_view` succeeds exactly when the text begins with a quote and a later quote is not directly preceded by a backslash |
| Scanners.StringBodyExact | include/noam/util/intrinsic_types.hpp:151-186 | on a raw body, a quote and a remainder, the string parser returns (text, remainder) exactly when unescaping the body gives text |
| Scanners.EscapesExact | include/noam/util/intrinsic_types.hpp:159-172 | a backslash and a code between quotes is read, whatever follows, exactly when the code is one of b, f, n, r, t, the backslash and the quote, and then stands for code point 8, 12, 10, 13, 9, 92 or 34 |
| Scanners.ViewFollowsString | include/noam/util/intrinsic_types.hpp:150-219 | whenever `string_parser` succeeds, its raw body unescapes to its string, and the view parser returns that body with the same remainder exactly when the body does not end in a backslash |
| Scanners.StringFollowsView | include/noam/util/intrinsic_types.hpp:150-219 | if the view has no two adjacent backslashes and only known escapes, `string_parser` succeeds with the same remainder and the unescaped view |
| Scanners.StringThenView | include/noam/util/intrinsic_types.hpp:150-219 | if `string_parser` succeeds on a raw body without adjacent backslashes, the view parser has the same remainder and its unescaped view is the string |
| Scanners.StringAndViewAgree | include/noam/util/intrinsic_types.hpp:150-219 | without adjacent backslashes `string_parser` succeeds exactly when the view parser does on a view whose escapes are all known, with equal remainders |
| Scanners.StringAndViewExact | include/noam/util/intrinsic_types.hpp:150-219 | on every text both succeed with the same remainder, the view unescaping to the string, exactly when the text is a quote, a body in which every quote directly follows a backslash, that ends in none and that unescapes, a quote, and a remainder |
| Scanners.StringAndViewCanDisagree | include/noam/util/intrinsic_types.hpp:159-213 | two backslashes between quotes: `string_parser` succeeds and the view parser fails, or runs on to a later quote |
| Scanners.UnescapeEscape | include/noam/util/intrinsic_types.hpp:159-172 | unescaping undoes the inverse of the escape switch on every string |
| Scanners.EscapeRoundTrip | include/noam/util/intrinsic_types.hpp:151-186 | `string_parser` on a quote, an escaped string, a quote and any rest returns exactly that string and rest |
| Scanners.IntParseSucceeds | include/noam/util/intrinsic_types.hpp:40-50 | a number n and a remainder are returned exactly when the text is an optional minus, one or more digits that stand for n, and a remainder that starts with no digit, and n fits the type |
| Scanners.IntParseExact | include/noam/util/intrinsic_types.hpp:40-50 | sign, digits and a rest starting with no digit: exactly that number and rest, or failure when it is out of range |
| Scanners.IntParseCut | include/noam/util/intrinsic_types.hpp:40-50 | what a success consumed is a sign, if any, and digits, and the value is theirs |
| Accumulator.RangesExact | include/noam/intrinsics.hpp:17-19 | a written number followed by no digit is read as an int exactly when -2^31 <= n < 2^31, as a long exactly when -2^63 <= n < 2^63, and fails otherwise |
| Values.EmplaceSorted | include/noam/combinators.hpp:675-689 | emplacing keeps the map's keys strictly increasing, in the order `Values.LessIsPrecedes` describes |
| Values.LessIsPrecedes | src/include/json_value.hpp:30 | one key is before another exactly when it is a proper prefix of it or has the smaller code at the first place they differ |
| Values.EmplaceFind | include/noam/combinators.hpp:675-689 | emplacing keeps the value of a key already present and sets that of a new one |
| Values.InsertAllFirstWins | include/noam/combinators.hpp:671-690 | the map filled with a list of pairs has exactly their keys, and each key has the value of its first occurrence |
| Values.FilledInOrder | include/noam/combinators.hpp:671-690 | the entries of a filled map stand in that order of their keys, in whatever order the pairs were read |
| Chains.ChainIsGreedy | include/noam/combinators.hpp:631-640 | the loop collects these values and stops here exactly when they are the values along the unique chain of separator-then-element steps, each consuming, and no further step succeeds |
| Chains.ChainStops | include/noam/combinators.hpp:631-640 | where the loop stops, separator then element fails: no trailing separator is consumed |
| Chains.ChainEnds | include/noam/combinators.hpp:631-640 | if every successful round consumes input the loop terminates |
| Chains.EndlessHasCause | include/noam/combinators.hpp:631-640 | the loop runs for ever only through a part that does or a round that consumes nothing |
| Chains.MapLoopIsChain | include/noam/combinators.hpp:678-690 | emplacing pairs as they are read fills the map with the list the plain loop would return |
| Chains.FoldLoopIsChain | include/noam/combinators.hpp:42-45 | `fold_left`'s loop over separator-then-element is the left fold of that list |
| Combinators.MapLoopElements | include/noam/combinators.hpp:670-690 | first pair and loop of `parse_map` together read what `sequence` reads |
| Combinators.AlwaysGoodIsSound | include/noam/result_types.hpp:148-177 | a parser whose computed flag says always good fails on no text |
| Combinators.FlagsFold | include/noam/combinators.hpp:202-203 | the flag is folded as the result types do it: `either` takes any alternative's, `match` and `join` need those of all their parsers, `map` and the one-argument `make` inherit it |
| Combinators.EitherAlwaysGood | include/noam/combinators.hpp:198-215 | `either` with one always-good alternative never falls off its end |
| Combinators.MatchAlwaysGood | include/noam/util/combinator_types.hpp:79-95 | `match` of always-good parsers never fails |
| Recursion.RunShrinks | include/noam/state.hpp:50-52 | over all expressions, what a success leaves is a suffix of its text |
| Laws.SequenceIsGreedy | include/noam/combinators.hpp:616-645 | `sequence(elem, sep)` returns a list and rest exactly when they are the first element and the greedy chain after it, or nothing when there is no first element |
| Laws.FusedSequence | include/noam/combinators.hpp:562-598 | the fused bracketed `sequence` equals `enclose(match{open, ws}, sequence<Sep>(elem), match{ws, close})` for every element parser |
| Laws.FusedMap | include/noam/combinators.hpp:647-696 | `parse_map` equals the bracketed sequence of its pairs followed by filling a map in order |
| Laws.PairIs | include/noam/combinators.hpp:511-516 | `make<pair, colon>(key, val)` is key, then colon with whitespace, then value, with the pair of both values |
| Laws.FoldLeftIsFoldOfSequence | include/noam/combinators.hpp:33-50 | `fold_left(elem, sep >> elem, op)` succeeds exactly when `sequence(elem, sep)` is not empty, with the same rest and the left fold of its list |
| Laws.JoinIsThen | include/noam/util/combinator_types.hpp:103-128 | `join(p1..pn)` equals `p1 >> ... >> pn` under any bracketing |
| Laws.MatchFlattens | include/noam/util/combinator_types.hpp:75-99 | a `match` nested in a `match` can be flattened |
| Laws.EitherIsFirst | include/noam/combinators.hpp:117-215 | `either` returns what its first alternative that does not fail returns on the original text |
| Laws.EitherReorders | include/noam/combinators.hpp:197-215 | alternatives that exclude each other on a text may be tried in any order |
| Recursion.RunMonotone | include/noam/util/combinator_types.hpp:132-147 | making the recursive parser more defined, on any set of texts a run cannot leave, changes no run that returned |
| Recursion.RunIsLocal | include/noam/util/combinator_types.hpp:132-147 | a run depends on the recursive parser only at suffixes of its text |
| Recursion.RecurseUnfolds | include/noam/util/combinator_types.hpp:143-146 | `recurse(f)` is f applied to `recurse(f)`, one call later, on every text, also where it diverges |
| Recursion.RecurseIsLeast | include/noam/util/combinator_types.hpp:143-146 | it is the least such parser: where it returns, every other solution of the equation returns the same |
| Recursion.RecursiveShrinks | include/noam/util/combinator_types.hpp:132-154 | a recursive parser returns suffixes only |
| Recursion.SameBodiesRecurseAlike | include/noam/util/combinator_types.hpp:132-154 | bodies that run alike whatever the recursive parser is define the same recursive parser |
| Machine.ConvertEncodes | include/noam/result_types.hpp:38-53 | assigning one result type to another keeps success, window and value, and keeps failure, in all encodings |
| Machine.FailureIsEncoded | include/noam/result_types.hpp:13-99 | a failure is a null state where the value type is default constructible and an empty optional elsewhere, and only a parser that is not always good has one |
| Machine.UpdateState | include/noam/util/helpers.hpp:5-18 | the state becomes the result's on success and stays where it was on failure |
| Machine.ParseAssign | include/noam/util/helpers.hpp:33-49 | the result is stored either way, the state moves on success only |
| Machine.ParseAssignValue | include/noam/util/helpers.hpp:64-82 | state and value change on success only |
| Machine.Parse | include/noam/result_types.hpp:13-138 | on every expression and window: good exactly when `Run` succeeds, then with its value and a window of the same buffer and end, beginning no earlier, onto exactly the rest; and the recursive parser is entered as often as `Run` counts |
| Machine.ParseLiteral | include/noam/util/intrinsic_types.hpp:96-106 | the same for literals |
| Machine.ParseChars | include/noam/util/intrinsic_types.hpp:108-136 | the same for the two character loops |
| Machine.ParseScan | include/noam/util/intrinsic_types.hpp:138-219 | the same for booleans and views |
| Machine.ParseMapTo | include/noam/util/combinator_types.hpp:35-50 | the same for `map`, in its always-good and its general branch |
| Machine.ParseEnclose | include/noam/util/combinator_types.hpp:58-70 | the same for `enclose` |
| Machine.ParseThen | include/noam/operators.hpp:23-39 | the same for `>>` |
| Machine.ParseTry | include/noam/combinators.hpp:418-427 | the same for `try_parse`, which leaves the caller's state on failure |
| Machine.ParseSelf | include/noam/util/combinator_types.hpp:134-146 | the nested call runs the body on the current, strictly shorter window |
| Machine.ParseRecursive | include/noam/util/combinator_types.hpp:143-146 | parse of `recurse(body)` is the recursive parser of the specification |
| Machine.EitherWritten | include/noam/combinators.hpp:117-188 | the overloads for up to four alternatives return the first success, each tried on the original state |
| Machine.EitherMany | include/noam/combinators.hpp:197-215 | the overload for any number, on one shared state, returns the same |
| Machine.MatchImpl | include/noam/util/combinator_types.hpp:82-95 | threading the state through `update_state` ends where running the parsers one after another ends |
| Machine.MatchAlways | include/noam/util/combinator_types.hpp:85-87 | the branch that looks at no result ends at the same place |
| Machine.ParseJoin | include/noam/util/combinator_types.hpp:113-127 | both branches of `join` compute the match followed by the last parser |
| Machine.MakeAll | include/noam/combinators.hpp:457-469 | the values kept are those of all parsers in order, unless one fails |
| Machine.ParseMake | include/noam/combinators.hpp:457-509 | all overloads of `make` build the value from the values in order |
| Machine.ParseFoldLeft | include/noam/combinators.hpp:33-50 | the loop computes the fold of the specification |
| Machine.ParseSequence | include/noam/combinators.hpp:616-645 | the loop computes the greedy chain |
| Machine.SeparatedItems | include/noam/combinators.hpp:578-593 | the loop over a literal separator returns the elements and the window right after the last |
| Machine.ParseSeparated | include/noam/combinators.hpp:533-561 | `sequence<Sep>(elem)`, with its own loop over a literal separator, computes what `sequence(elem, separator<Sep>)` computes |
| Machine.ParseBracketed | include/noam/combinators.hpp:562-598 | the fused form computes opening, elements and closing |
| Machine.ParsePair | include/noam/combinators.hpp:658-660 | key, separator and value give the pair |
| Machine.MappingItems | include/noam/combinators.hpp:670-690 | the map after the loop is the one filled with all pairs in order |
| Machine.ParseMapping | include/noam/combinators.hpp:647-696 | the fused map parser computes its specification |
| JsonParser.AlternativesExclusive | src/json-example.cpp:33-42 | on every text at most one of the six alternatives does anything, whatever the recursive parser is |
| JsonParser.AnyOrderSameParser | src/json-example.cpp:32-43 | any reordering of the six alternatives gives the same JSON parser |
| JsonParser.StepReturns | src/json-example.cpp:32-43 | one call returns if the recursive calls return on all strictly shorter texts |
| JsonParser.ValueReturns | src/json-example.cpp:32-43 | `parse_value` returns on every text |
| JsonParser.ValueUnfolds | src/json-example.cpp:32-43 | `parse_value` is one step whose recursive calls are `parse_value` |
| JsonParser.ValueIsUnique | src/json-example.cpp:32-43 | a parser satisfies the equation of `parse_value` exactly when it is `parse_value` |
| JsonGrammar.ValueSound | src/json-example.cpp:32-43 | whatever `parse_value` accepts is the text of a well-formed syntax tree with that meaning, followed by the remainder |
| JsonGrammar.ValueComplete | src/json-example.cpp:32-43 | every well-formed tree is read back with its meaning and exactly its text is consumed, unless what follows extends a number |
| JsonGrammar.ParseValueExact | src/json-example.cpp:32-43 | `parse_value` returns (v, rest) exactly when the text is a JSON text for v followed by rest, where rest may be anything unless it would extend a number |
| JsonGrammar.NoTrailingCommaInArray | include/noam/combinators.hpp:584-596 | an array with a comma after its last item is rejected, whatever whitespace surrounds the comma and whatever follows |
| JsonGrammar.NoTrailingCommaInObject | include/noam/combinators.hpp:679-694 | so is an object with a comma after its last member |
| JsonGrammar.OneMeaning | src/json-example.cpp:32-43 | the grammar is unambiguous in meaning |
| JsonGrammar.ParseJsonExact | src/json-example.cpp:50 | `parse_json` reads a text to its end with value v exactly when the text is a value meaning v with whitespace around it |
| JsonSyntax.NumbersMayStart | src/json-example.cpp:33-42 | a number text is only asked to begin with a minus, a digit, a point, or the first letter of an infinity or a NaN in either case |
| JsonGrammar.DelimiterOccurs | src/json-example.cpp:32-43 | each of the delimiters the number format is asked to stop at can directly follow a number in a document |
| JsonCost.ValueFrugal | src/json-example.cpp:32-43 | `parse_value` is invoked at most once per character consumed on success and at most size + 1 times on failure, all nested calls and failed attempts counted |
| JsonPrinter.Formatter.Format | src/include/json_value.hpp:66-120 | appends exactly the printed text to the output and leaves the indentation string as it was |
| JsonPrinter.Formatter.FormatArray | src/include/json_value.hpp:72-89 | the loop appends the items separated by commas, in order |
| JsonPrinter.Formatter.FormatObject | src/include/json_value.hpp:90-111 | grows the indentation, appends the entries in key order, shrinks it back |
| JsonLayout.PrintIsLines | src/include/json_value.hpp:66-120 | the printed text is its lines: each but the first begins with the indentation given and four blanks for every object open there; an entry begins with its quoted key, a colon and a space and ends in a comma unless it is the last; items are joined by a comma and a space; braces stand on lines of their own level |
| JsonLayout.KeysInOrder | src/include/json_value.hpp:90-111 | the keys of an object are printed in dictionary order |
| JsonRoundTrip.PrintIsTree | src/include/json_value.hpp:66-120 | the printed text of a value is the text of a syntax tree |
| JsonRoundTrip.TreeMeans | src/include/json_value.hpp:66-120 | that tree means the value, with empty objects turned into empty arrays |
| JsonRoundTrip.PrintThenParse | src/include/json_value.hpp:66-120 | for a value with safe strings (a quote only right after a backslash, no backslash at the end), parsing the printed text consumes all of it and gives the value with its empty objects replaced by empty arrays |
| JsonRoundTrip.RoundTrip | src/include/json_value.hpp:66-120 | printing then parsing gives back the value exactly when its strings and keys hold quotes only right after a backslash and end in none, and it holds no empty object, at any nesting and any whitespace indentation |
| JsonRoundTrip.ParsePrintParse | src/json-example.cpp:78-84 | a value that was parsed prints to a text that parses again, to the same value but for empty objects |
| JsonRoundTrip.EmptyObjectIsLost | src/include/json_value.hpp:93-94 | an empty object is printed as `[]` and comes back as an empty array |
| JsonMachine.ParseText | src/json-example.cpp:50 | `parse_json` on a window gives exactly the specified outcome, and enters `parse_value` at most once per character consumed when it succeeds and at most size + 1 times when it fails |
| JsonMachine.PrintAndParse | src/json-example.cpp:78-84 | for a value with safe strings, printing on an output and parsing that output gives the value back and an empty window, but for empty objects |
| Decimal.LongsLawful | include/noam/util/intrinsic_types.hpp:40-50 | decimal integers in the range of `long` obey the laws asked of a number format |
| Coroutines.StepsAreOrderly | include/noam/coupling/parse_promise.hpp:31-67 | after every step of every coroutine: the state is the one after the last successful await, no parser ran after a failed one, and `is_good` holds exactly when `co_return` was reached |
| Coroutines.StepsAreSequencing | include/noam/coupling/await_parser.hpp:18-31 | from any running promise, n commands yield what sequencing the awaited parsers yields |
| Coroutines.CoroutineIsSequencing | include/noam/coupling/parse_promise.hpp:19-27 | the converted result of a coroutine is monadic sequencing of its awaited parsers, for every body and text |
| Coroutines.MoreFuel | include/noam/coupling/parse_promise.hpp:19-27 | a run that ends does not depend on how many commands it is allowed |
| Coroutines.MakeWithCoroutine | include/noam/co_await.hpp:30-35 | `make_w_coro` of any list of parsers equals `make` of the same list |
| Promises.ParsePromise.ReturnValue | include/noam/coupling/parse_promise.hpp:56-63 | sets the value and `is_good`, and nothing else |
| Promises.ParsePromise.AwaitReady | include/noam/coupling/await_parser.hpp:18-28 | runs the parser on the promise's state; ready exactly when it succeeds, and the state moves only then |
| Promises.ParsePromise.AwaitTestReady | include/noam/combinators.hpp:314-327 | awaiting `test_then` is always ready, applies func exactly when the parser succeeds, and moves the state only then |
| Promises.ParsePromise.Resume | include/noam/coupling/parse_promise.hpp:19-20 | one resume leaves the object in the state of the step machine at its end, with a window of the same buffer and end |
| Promises.TestThen | include/noam/combinators.hpp:314-327 | succeeds always, tells whether the parser did, and calls func exactly when it did |
| Promises.ParseCoroutine | include/noam/coupling/parse_promise.hpp:19-27 | a coroutine called as a parser encodes the sequencing of its awaits |
| Summers.TestThenIsTryParse | bench/bench.cpp:114-167 | the two coroutines yield the same on every text, from every point of the loop |
| Summers.CoroutinesSum | bench/bench.cpp:114-167 | both succeed exactly on texts that begin with a list of ints and return its sum and what follows it |
| Summers.FoldSums | bench/bench.cpp:106-112 | the fold's result: first number as a long, then the sum of the chain of ints |
| Summers.FoldAgrees | bench/bench.cpp:106-167 | the fold agrees with the coroutines exactly unless the first number fits long but not int |
| Summers.FoldCanDisagree | bench/bench.cpp:106-108 | on 3000000000 the fold succeeds and the coroutines fail |
| Baseline.NextNumber | bench/bench.cpp:190-206 | one round of the hand-written loop reads a comma among spaces and an int |
| Baseline.AddWithBaseline | bench/bench.cpp:169-213 | the hand-written loop returns the sum of the list read with spaces only around commas, and the window right after its last number; its running sum fits a long at every iteration on up to MOST_CHARACTERS |
| Baseline.AddWithCoroutine | bench/bench.cpp:114-167 | the coroutines run on a promise object give the sum of the list |
| Baseline.BaselineReadsPrefix | bench/bench.cpp:142-213 | on every text the numbers the hand-written loop reads are a prefix of those the combinators read |
| Baseline.ChainsCompared | bench/bench.cpp:188-211 | the two loops stop at the same place exactly when the separators the combinators read hold no tab, LF or CR |
| Baseline.BaselineAgrees | bench/bench.cpp:142-213 | hand-written loop and coroutines agree on success, sum and remainder exactly under that condition |
| Baseline.BaselineAgreesOnPlainText | bench/bench.cpp:142-213 | they agree on every text without tab, LF and CR |
| Baseline.BaselineCanDisagree | bench/bench.cpp:190-198 | a tab before a comma stops the hand-written loop and not the coroutines |
| Accumulator.StaysExactly | bench/bench.cpp:106-211 | no list in n characters takes a sum out of the range of a long exactly when `sum - Down.Far(n)` and `sum + Up.Far(n)` are in it: 11 characters for each largest int and 12 for each smallest, and one more number of nines in what is left |
| Accumulator.FarthestSum | bench/bench.cpp:190-210 | a text of n characters moves a sum exactly that far |
| Accumulator.FoldFitsExactly | bench/bench.cpp:106-112 | the fold's accumulator stays in the range, on every text that begins with the long v and has n more characters, exactly when n characters cannot move v past an end of it |
| Accumulator.FoldCanOverflow | bench/bench.cpp:106-112 | the largest long, a comma and 1: the sum leaves the range |
| Accumulator.SumsFitExactly | bench/bench.cpp:114-213 | the sums of the summers that begin with an int stay in the range on all texts of n characters exactly when n is at most MOST_CHARACTERS, 47,244,640,278, with spaces or any whitespace around commas |
| Accumulator.LongSumsCanOverflow | bench/bench.cpp:114-213 | at every greater length there is a text whose sum is past the largest long |
| Accumulator.AccumulatorBound | bench/bench.cpp:184-211 | a text of n characters yields at most (n + 1) / 2 numbers, and for n up to MOST_CHARACTERS, so for n up to 2^33, every partial sum fits a 64-bit long |
| Accumulator.RunningSumsFit | bench/bench.cpp:122-163 | in every state either coroutine reaches on such a text the running sum fits a long |

## Left out

- Machine.Parse: asked only for runs that return; a loop whose round consumes nothing does not end in the source either, and `Run` calls that divergence.
- Windows.ScanString: when the last escape ends the window, the buffer must hold the byte after it; a read past the end of memory is not modelled.
- Promises.ParsePromise.Resume: asked only for runs that return within some number of commands, for the same reason as Machine.Parse.
- Summers.FoldSums: sums are unbounded integers; `Accumulator.FoldFitsExactly` and `Accumulator.SumsFitExactly` say exactly when they are what a 64-bit long holds, and a sum beyond that is undefined in the source.
- `std::from_chars`, fast_float and floating-point values: foreign code; a `double` is a real without infinities and NaN, behind the laws of `NumberFormat`.
- The fmt library: the printer's `format_to` appends characters to an output.
- `string_parser` is no constructor of `Expr`, because it can leave a window that begins past its end: `Machine.Parse` and its window discipline do not reach `Windows.ScanString`. Its function `StringParse` can stand in an expression as a `Leaf` (`Combinators.StringIsLeaf`), so the laws about expressions hold for it.
- `sequence<Sep>(elem)` has no constructor of its own either: it is `Sequence(elem, Separator(Sep))`, which `Machine.ParseSeparated` justifies for its loop.
- A `state` is a value: methods return the new state instead of writing through a reference, so two parsers sharing one reference are not modelled.
- Null input windows: parsers are applied to non-null windows; only results carry the null state.
- Templates, concepts, moves, `box`, `optional_ref`, `[[no_unique_address]]`: no behaviour beyond an option type.
- Coroutine handles, their allocation and destruction, and `unhandled_exception`.
- `test`: its comment says it advances on success, its code keeps the original state; no combinator, example or benchmark modelled here uses it.
- `line_parser`, the lookahead family, `test_prefix`, `require_prefix`, the orderings of `state`: claims about them are easy.
- The benchmark harness, console output, `reflection.hpp`, `util/fmt.hpp`, build files: plumbing.
