# Fluid template parser front end, modelled in Dafny

This project models the front end of the Fluid template engine's parser. It covers two pieces.

The first piece is `ParsingState`, the state the parser builds a template into:
- a root node;
- the stack of open nodes, which starts as `[root]`, with push, peek, pop and count;
- an identifier, which defaults to `''`;
- a `compiled` flag;
- a variable container, which falls back to a fresh standard provider;
- the layout name, read from the root's `layoutName` child.

The second piece is the `TemplateParser` rules that its unit tests pin down:
- `unquoteString`;
- `parseArguments`, with boolean coercion and the required-argument check;
- `buildArgumentObjectTree`;
- `recursiveArrayHandler`, the array-literal grammar. This includes quoted sub-arrays that spread into their parent when the first quote inside the sub-array is unescaped and is followed by a character that is neither white space, `,` nor `}`. A quoted value that does not meet this condition, such as `'{some.{index}}'`, stays one quoted value;
- the text and object-accessor handlers, with interceptor tiering: general interceptors always run, and escaping interceptors run only when escaping is enabled;
- the opening and closing view helper tag handlers, which check the namespace against "ignored" and "valid" answers from the resolver;
- `buildObjectTree`, which fails when a tag is left open.

Everything is pure functions over immutable datatypes:
- nodes are values `Node(kind, children)`;
- the state is a record whose stack is a `seq<Node>`;
- errors are `Result` / `Outcome` values carrying a `ParseError`.

The view helper resolver is abstract. It is a record of functions: which namespace is ignored or valid, which class a tag resolves to, which arguments that class declares, and whether it accepts undeclared arguments.

The interceptor configuration is abstract too. It gives the general and escaping interceptors of each interception point, and what an interceptor does to a node.

Each handler returns the calls it made to the stack and to the configuration, as a `seq<Call>`. That makes properties like "pops exactly once" and "escaping interceptors are never fetched" statable.

`TemplateParser.php` is not part of this model. The parser rules are defined so that they agree with the assertions of the tests in `tests/Unit/Core/Parser/TemplateParserTest.php` that the "## Model" table cites. Those assertions are proved as lemmas. The tests listed under "## Left out" are not modelled.

Modules, in dependency order:

| module | file | contents |
|---|---|---|
| Wrappers | wrappers.dfy | `Option`, `Result`, `Outcome` |
| PhpArrays | php_arrays.dfy | ordered PHP arrays: keys, lookup, write, append, key normalisation |
| Nodes | nodes.dfy | node kinds and `addChildNode` |
| ParsingStates | parsing_state.dfy | `ParsingState` |
| Texts, Scanning | texts.dfy, scanning.dfy | concatenation, character classes, runs, brace matching |
| Quoting, QuotedTokens | quoting.dfy, quoted_tokens.dfy | `unquoteString` and its inverse, quoted tokens in longer text |
| ArgumentTrees, Arguments, ParseErrors | argument_trees.dfy, arguments.dfy, parse_errors.dfy | `buildArgumentObjectTree`, `parseArguments`, argument checks |
| ArrayLiterals, ArraySyntax, ArrayReading, ArraySpread | array_*.dfy | `recursiveArrayHandler`, a writer for array literals, read-back and spreading proofs |
| Calls, Interceptors | calls.dfy, interceptors.dfy | call traces, interceptor tiers |
| TemplateParsers | template_parser.dfy | escaping flag, text/object-accessor/tag handlers |
| TreeBuilding | tree_building.dfy | `buildObjectTree` over split template segments |
| *Examples | unquote_examples.dfy, argument_examples.dfy, array_examples.dfy, interceptor_examples.dfy, tag_examples.dfy | the test cases, one lemma each |

## Model

| member | source | states |
|---|---|---|
| ParsingStates.NewParsingState | src/Core/Parser/ParsingState.php:54-58 | a fresh state's stack is exactly `[root]`, so the count is 1 and the top is the root; the root is an empty root node, the identifier is `''`, not compiled, no container injected |
| ParsingStates.SetIdentifier | src/Core/Parser/ParsingState.php:74-85 | reading the identifier back gives the one set; root, stack, container and flag are unchanged |
| ParsingStates.SetVariableProvider | src/Core/Parser/ParsingState.php:93-96 | the container handed out afterwards is the injected one; nothing else changes |
| ParsingStates.SetRootNode | src/Core/Parser/ParsingState.php:104-107 | the root is replaced and the node stack is left untouched, as are the other fields |
| ParsingStates.PushNodeToStack | src/Core/Parser/ParsingState.php:142-145 | the pushed node is the new top, the count grows by one, the elements below are unchanged, nothing else changes |
| ParsingStates.GetNodeFromStack | src/Core/Parser/ParsingState.php:152-155 | the last element of the stack, or none (null) exactly when the stack is empty |
| ParsingStates.PopNodeFromStack | src/Core/Parser/ParsingState.php:162-165 | returns what a peek would; a non-empty stack loses exactly its top and the count drops by one; an empty stack leaves the state as it was |
| ParsingStates.PushThenPop | src/Core/Parser/ParsingState.php:142-145 | pushing `n` then popping restores the prior state and returns `n` |
| ParsingStates.PopThenPush | src/Core/Parser/ParsingState.php:162-165 | on a non-empty stack, pushing back what was popped restores the state |
| ParsingStates.PushesThenPops | src/Core/Parser/ParsingState.php:142-175 | pushing `k` nodes raises the count by `k`, and `k` pops undo them |
| ParsingStates.GetVariableContainer | src/Core/Parser/ParsingState.php:182-185 | the injected container when one is set, otherwise an empty standard provider; never nothing |
| ParsingStates.GetLayoutName | src/Core/Parser/ParsingState.php:196-204 | none (null, not an error) when the root has no `layoutName` named child; otherwise whatever executing that child gives, which may itself be null |
| ParsingStates.LayoutNameOfRoot | src/Core/Parser/ParsingState.php:104-107 | after a root is set, the layout name is executed from that root's `layoutName` child, or null without one |
| ParsingStates.LayoutNameIgnoresStack | src/Core/Parser/ParsingState.php:142-165 | pushing or popping nodes never changes the layout name |
| ParsingStates.GetIdentifier | src/Core/Parser/ParsingState.php:82-85 | the identifier the state holds; `SetIdentifier` pins it to the last one set, and `NewParsingState` to `''` |
| ParsingStates.GetRootNode | src/Core/Parser/ParsingState.php:114-117 | the root the state holds; `SetRootNode` pins it to the last root set, and `NewParsingState` to the bottom of the stack |
| ParsingStates.CountNodeStack | src/Core/Parser/ParsingState.php:172-175 | zero exactly when a peek finds no node |
| ParsingStates.GetNamedChildOfState | src/Core/Parser/ParsingState.php:60-63 | the root's child declared under the name; none (the not-found exception) exactly when the root declares no such child |
| Nodes.AddChild | tests/Unit/Core/Parser/TemplateParserTest.php:462-473 | a child is appended after the existing children; the parent's kind is unchanged |
| Nodes.GetNamedChild | src/Core/Parser/ParsingState.php:60-63 | a named child exists exactly when the root declares it, and it is that node |
| Quoting.StripQuotes | tests/Unit/Core/Parser/TemplateParserTest.php:213-216 | drops the leading quote, and the last character too when the text is at least two long and ends with that same quote |
| Quoting.Unquote | tests/Unit/Core/Parser/TemplateParserTest.php:209-228 | the result is never longer than the input; an unquoted text without backslashes is returned as it is |
| Quoting.UnquoteQuote | tests/Unit/Core/Parser/TemplateParserTest.php:209-228 | for both quote characters and every text, unquoting the quoted, escaped text gives the text back |
| Quoting.UnquoteUnterminated | tests/Unit/Core/Parser/TemplateParserTest.php:215 | a missing closing quote is tolerated: an opening quote plus escaped text unquotes to the text |
| Quoting.UnquoteQuotedPieces | tests/Unit/Core/Parser/TemplateParserTest.php:209-228 | a quoted text made of plain runs, escaped quotes and escaped backslashes unquotes to the runs with the quotes and backslashes unescaped |
| Quoting.CollapseUndoesDouble | tests/Unit/Core/Parser/TemplateParserTest.php:215 | turning `\\` into `\` undoes doubling every backslash |
| QuotedTokens.QuotedTokenWritten | tests/Unit/Core/Parser/TemplateParserTest.php:553-555 | in a longer text, the end of a written quoted token is found at its closing quote, past any escaped quote |
| QuotedTokens.UnquoteWritten | tests/Unit/Core/Parser/TemplateParserTest.php:553-555 | the quoted token as written in an argument string unquotes to its text |
| UnquoteExamples.UnquoteExample1 | tests/Unit/Core/Parser/TemplateParserTest.php:211 | the first data row unquotes to its expected text |
| UnquoteExamples.UnquoteExample2 | tests/Unit/Core/Parser/TemplateParserTest.php:212 | the second data row unquotes to its expected text |
| UnquoteExamples.UnquoteExample3 | tests/Unit/Core/Parser/TemplateParserTest.php:213 | the third data row unquotes to its expected text |
| UnquoteExamples.UnquoteExample4 | tests/Unit/Core/Parser/TemplateParserTest.php:214 | the fourth data row unquotes to its expected text |
| UnquoteExamples.UnquoteExample5 | tests/Unit/Core/Parser/TemplateParserTest.php:215 | the row without a closing quote and with a doubled backslash unquotes to its expected text |
| UnquoteExamples.UnquoteExample6 | tests/Unit/Core/Parser/TemplateParserTest.php:216 | the row whose text starts and ends with an escaped quote unquotes to its expected text |
| ArgumentTrees.BuildArgumentObjectTree | tests/Unit/Core/Parser/TemplateParserTest.php:579-610 | a value with no `{` or `<` is a childless text node holding the value, or a numeric node exactly when it is an integer text |
| ArgumentTrees.IntegerTextReadsBack | tests/Unit/Core/Parser/TemplateParserTest.php:1056-1081 | every integer, written in decimal, becomes the numeric node of that integer |
| Arguments.ArgumentAt | tests/Unit/Core/Parser/TemplateParserTest.php:553-555 | a match of the argument pattern ends after where it was tried and yields a non-empty name of name characters and a value between two equal quotes |
| Arguments.SplitArguments | tests/Unit/Core/Parser/TemplateParserTest.php:553-555 | every match found over the text, left to right, has that shape |
| Arguments.CollectArguments | tests/Unit/Core/Parser/TemplateParserTest.php:560-575 | the collected names are exactly the names already stored and the names matched |
| Arguments.CoerceAll | tests/Unit/Core/Parser/TemplateParserTest.php:1056-1081 | coercion keeps the number, order and names of the arguments, and leaves every argument not declared boolean as it was |
| Arguments.ParseArgumentsWith | tests/Unit/Core/Parser/TemplateParserTest.php:1019-1051 | fails only with a missing-required or undeclared-arguments error; a success holds every required name, its undeclared names are accepted, and it holds exactly the names written |
| Arguments.ParseArguments | tests/Unit/Core/Parser/TemplateParserTest.php:553-575 | with real object trees, every argument declared boolean in a successful parse is a boolean node |
| Arguments.FindArgument | tests/Unit/Core/Parser/TemplateParserTest.php:560-575 | an argument is found exactly when one of that name is present, and the value found is its value |
| Arguments.SetArgumentFinds | tests/Unit/Core/Parser/TemplateParserTest.php:560-575 | after writing `name`, looking up `name` gives the new value and every other name is as before |
| Arguments.LastValue | tests/Unit/Core/Parser/TemplateParserTest.php:560-575 | the value of the last match of a name, as a PHP array keeps it; none exactly when there is no match |
| Arguments.CollectFinds | tests/Unit/Core/Parser/TemplateParserTest.php:560-575 | each collected argument is the last written value for its name, unquoted and built into an object tree |
| Arguments.CollectDistinct | tests/Unit/Core/Parser/TemplateParserTest.php:560-575 | collected arguments never repeat a name |
| Arguments.CoerceFinds | tests/Unit/Core/Parser/TemplateParserTest.php:1056-1081 | coercion keeps the names and rewrites exactly the values whose definition is boolean |
| Arguments.CoerceNothing | tests/Unit/Core/Parser/TemplateParserTest.php:1056-1081 | without definitions nothing is coerced |
| Arguments.ToBooleanNode | tests/Unit/Core/Parser/TemplateParserTest.php:1056-1081 | the coerced value is always a boolean node, and a boolean node is left as it is |
| Arguments.UndeclaredNames | tests/Unit/Core/Parser/TemplateParserTest.php:560-575 | a name is reported exactly when it is given and no definition declares it |
| Arguments.AbortIfRequiredArgumentsAreMissing | tests/Unit/Core/Parser/TemplateParserTest.php:1019-1051 | passes exactly when every required definition has an argument; otherwise fails naming the first required definition that is missing |
| Arguments.ParseArgumentsValues | tests/Unit/Core/Parser/TemplateParserTest.php:560-575 | a successful parse holds distinct names, and each holds the last written value of that name, unquoted, built and coerced |
| Arguments.ParseArgumentsChecks | tests/Unit/Core/Parser/TemplateParserTest.php:1019-1051 | the parse fails with a missing-argument error exactly when a required name is not written, and otherwise succeeds exactly when the undeclared names are accepted |
| Arguments.ParseArgumentsNodes | tests/Unit/Core/Parser/TemplateParserTest.php:1056-1081 | with real object trees, a boolean-declared argument becomes a boolean node wrapping its tree, and any other argument keeps its tree |
| Arguments.ReadWrittenArguments | tests/Unit/Core/Parser/TemplateParserTest.php:553-555 | every well-written `name="value"` list reads back as exactly those names and values |
| Arguments.ParseWritten | tests/Unit/Core/Parser/TemplateParserTest.php:553-575 | every well-written argument list with its required names present parses to the written arguments, coerced |
| ArgumentExamples.ArgumentsExample1 | tests/Unit/Core/Parser/TemplateParserTest.php:553 | `a="2"` parses to `a` ↦ `2` |
| ArgumentExamples.ArgumentsExample2 | tests/Unit/Core/Parser/TemplateParserTest.php:554 | `a="2" b="foobar ' with \" quotes"` parses to both arguments, with the escaped quote unescaped |
| ArgumentExamples.ArgumentsExample3 | tests/Unit/Core/Parser/TemplateParserTest.php:555 | a brace value `{number : 362525200}` is kept as written |
| ArgumentExamples.MissingRequiredExample | tests/Unit/Core/Parser/TemplateParserTest.php:1019-1031 | a missing required argument fails, naming it |
| ArgumentExamples.RequiredPresentExample | tests/Unit/Core/Parser/TemplateParserTest.php:1036-1051 | with the required argument present and the optional one absent, the check passes |
| ArgumentExamples.BooleanArgumentsExample | tests/Unit/Core/Parser/TemplateParserTest.php:1056-1081 | `var1="1" var2="0"` declared `bool`/`boolean` parse to boolean nodes wrapping the numeric nodes 1 and 0 |
| PhpArrays.Put | tests/Unit/Core/Parser/TemplateParserTest.php:925-943 | a write replaces the value of an existing key in place, or appends a new key; every other key keeps its value |
| PhpArrays.Append | tests/Unit/Core/Parser/TemplateParserTest.php:914-924 | a keyless value is stored under the next integer index, and keys stay distinct |
| PhpArrays.NextIndex | tests/Unit/Core/Parser/TemplateParserTest.php:934-943 | the next index is not yet used and is larger than every integer key |
| PhpArrays.NormalizeKey | tests/Unit/Core/Parser/TemplateParserTest.php:914-924 | a canonical integer text becomes an integer key with its value; any other text stays a string key |
| ArrayLiterals.RecursiveArrayHandler | tests/Unit/Core/Parser/TemplateParserTest.php:880-1014 | the array read from a literal never repeats a key |
| ArrayReading.ReadsBack | tests/Unit/Core/Parser/TemplateParserTest.php:880-1014 | every well-formed array literal, written out, reads back as its independent meaning: numbers, quoted texts, accessors, nested arrays, keyed and keyless entries |
| ArraySpread.Spreads | tests/Unit/Core/Parser/TemplateParserTest.php:925-943 | a quoted sub-array under a key spreads into the parent, provided the first quote inside it is unescaped and followed by a character that is neither white space, `,` nor `}`: the result is the meaning of the parent's items followed by the inner items, later keys winning |
| ArrayExamples.SingleNumber | tests/Unit/Core/Parser/TemplateParserTest.php:882-888 | the test's expected array |
| ArrayExamples.SingleQuotedString | tests/Unit/Core/Parser/TemplateParserTest.php:889-895 | the test's expected array |
| ArrayExamples.SingleIdentifier | tests/Unit/Core/Parser/TemplateParserTest.php:896-902 | the test's expected array |
| ArrayExamples.SingleSubarray | tests/Unit/Core/Parser/TemplateParserTest.php:903-913 | the test's expected array |
| ArrayExamples.SubarrayWithNumericalIds | tests/Unit/Core/Parser/TemplateParserTest.php:914-924 | keys `0..n` give a plain list |
| ArrayExamples.SingleQuotedSubarray | tests/Unit/Core/Parser/TemplateParserTest.php:925-933 | the quoted sub-array spreads into the parent and `number` becomes 234 |
| ArrayExamples.QuotedSubarrayWithNumericalKeys | tests/Unit/Core/Parser/TemplateParserTest.php:934-943 | numeric keys of the spread sub-array land after `number: 123` |
| ArrayExamples.NestedSubarray | tests/Unit/Core/Parser/TemplateParserTest.php:944-959 | the test's expected nested array |
| ArrayExamples.MixedTypes | tests/Unit/Core/Parser/TemplateParserTest.php:960-975 | the test's expected array of mixed values |
| ArrayExamples.VariableIdentifier | tests/Unit/Core/Parser/TemplateParserTest.php:976-984 | a quoted value with braces is the tree the template parser builds for it: a root holding the accessor `some.{index}` |
| ArrayExamples.VariableIdentifierInArray | tests/Unit/Core/Parser/TemplateParserTest.php:985-997 | the same value inside a nested array, under its key |
| TemplateParsers.NewTemplateParser | tests/Unit/Core/Parser/TemplateParserTest.php:121-128 | a new parser escapes by default |
| TemplateParsers.IsEscapingEnabled | tests/Unit/Core/Parser/TemplateParserTest.php:121-128 | the escaping flag; `NewTemplateParser` pins it to true and `SetEscapingEnabled` to the value set |
| TemplateParsers.SetEscapingEnabled | tests/Unit/Core/Parser/TemplateParserTest.php:121-128 | the escaping flag reads back as set; nothing else changes |
| Interceptors.CallInterceptor | tests/Unit/Core/Parser/TemplateParserTest.php:478-548 | without a configuration the node passes unchanged and no interceptor is consulted; all calls concern the one interception point |
| Interceptors.CallInterceptorFetchesEscaping | tests/Unit/Core/Parser/TemplateParserTest.php:478-524 | the escaping interceptors are fetched exactly when there is a configuration and escaping is enabled |
| Interceptors.CallInterceptorFetchesGeneral | tests/Unit/Core/Parser/TemplateParserTest.php:526-548 | the general interceptors are fetched exactly once whenever there is a configuration |
| Interceptors.CallInterceptorNode | tests/Unit/Core/Parser/TemplateParserTest.php:478-548 | the result is the node run through the general interceptors and then, when escaping is enabled, the escaping ones |
| Interceptors.CallInterceptorProcesses | tests/Unit/Core/Parser/TemplateParserTest.php:478-548 | each interceptor processes the node once per registration in a tier that runs, and never when its tier does not run |
| Interceptors.EscapingAfterGeneral | tests/Unit/Core/Parser/TemplateParserTest.php:478-524 | with escaping on, the result is the escaping-off result run through the escaping interceptors |
| Interceptors.PipeConcat | tests/Unit/Core/Parser/TemplateParserTest.php:526-548 | running two interceptor lists one after the other is running their concatenation |
| TemplateParsers.AttachIntercepted | tests/Unit/Core/Parser/TemplateParserTest.php:462-473 | the intercepted node is added to the open node, which is read once; with no open node it fails |
| TemplateParsers.InterceptedProcesses | tests/Unit/Core/Parser/TemplateParserTest.php:686-758 | each general interceptor processes the node, and escaping ones only when escaping is enabled |
| TemplateParsers.TextHandler | tests/Unit/Core/Parser/TemplateParserTest.php:686-758 | the text node is intercepted at the text point and attached to the open node; general interceptors are fetched once, escaping ones exactly when enabled |
| TemplateParsers.ObjectAccessorHandler | tests/Unit/Core/Parser/TemplateParserTest.php:462-548 | a non-empty path becomes an accessor node, intercepted and attached to the open node; escaping interceptors are fetched exactly when enabled; an empty path does nothing |
| TemplateParsers.ArgumentMapHoldsLast | tests/Unit/Core/Parser/TemplateParserTest.php:289-312 | the argument map handed to the view helper holds exactly the parsed names, each with its last value |
| TemplateParsers.InitializeViewHelperAndAddItToStack | tests/Unit/Core/Parser/TemplateParserTest.php:50-82 | an ignored namespace gives null without asking whether it is valid; an invalid one fails with an unknown-namespace error; otherwise the view helper node is pushed, the only stack call |
| TemplateParsers.OpeningViewHelperTagHandler | tests/Unit/Core/Parser/TemplateParserTest.php:289-335 | the ignored check comes first and is a no-op; an invalid namespace fails before anything else is asked |
| TemplateParsers.OpeningArgumentError | tests/Unit/Core/Parser/TemplateParserTest.php:289-312 | an argument error stops the tag before the stack is touched |
| TemplateParsers.OpeningKeepsTagOpen | tests/Unit/Core/Parser/TemplateParserTest.php:289-312 | a tag that is not self-closing pushes its view helper node and never pops |
| TemplateParsers.OpeningSelfClosing | tests/Unit/Core/Parser/TemplateParserTest.php:313-335 | a self-closing tag's node is closed at once and attached to the open node below it |
| TemplateParsers.OpeningSelfClosingCalls | tests/Unit/Core/Parser/TemplateParserTest.php:313-335 | a self-closing tag pushes, pops and reads the stack once each, in that order |
| TemplateParsers.CloseSelf | tests/Unit/Core/Parser/TemplateParserTest.php:313-335 | closing the node just pushed attaches its intercepted form to the node below; it fails exactly when nothing is below |
| TemplateParsers.ClosingViewHelperTagHandler | tests/Unit/Core/Parser/TemplateParserTest.php:84-117 | an ignored namespace gives false; an invalid one fails; otherwise the error is "never opened" exactly when the popped node is missing or not a view helper, and "wrong nesting" exactly when it is one of another class; a match attaches it to the node below |
| TemplateParsers.ClosingPopsOnce | tests/Unit/Core/Parser/TemplateParserTest.php:407-434 | a closing tag with a valid namespace pops the stack exactly once, whatever it finds |
| TemplateParsers.OpenThenClose | tests/Unit/Core/Parser/TemplateParserTest.php:289-335 | opening a tag and closing it gives the same state as writing it self-closing |
| TagExamples.ClosingNeverOpenedExample | tests/Unit/Core/Parser/TemplateParserTest.php:407-420 | closing `f:render` on a fresh state fails as never opened, after one pop |
| TagExamples.WrongTagNestingExample | tests/Unit/Core/Parser/TemplateParserTest.php:422-434 | closing `f:render` over a view helper of another class fails with wrong nesting, after one pop |
| TreeBuilding.HandleText | tests/Unit/Core/Parser/TemplateParserTest.php:686-733 | a text succeeds exactly when a node is open, otherwise fails with no open node; without interceptors its text node is attached to the open node |
| TreeBuilding.HandleSegment | tests/Unit/Core/Parser/TemplateParserTest.php:265-284 | a tag in an ignored namespace is handled as the text it was written as; one in an invalid namespace fails |
| TreeBuilding.BuildFrom | tests/Unit/Core/Parser/TemplateParserTest.php:265-284 | the root stays at the bottom of the stack through every segment |
| TreeBuilding.KeepsRoot | tests/Unit/Core/Parser/TemplateParserTest.php:265-284 | no segment handler removes or replaces the root at the bottom of the stack |
| TreeBuilding.BuildObjectTree | tests/Unit/Core/Parser/TemplateParserTest.php:133-143 | a built tree has exactly the root left open, and the state's root is that node |
| TreeBuilding.TextOnlyTree | tests/Unit/Core/Parser/TemplateParserTest.php:252-262 | a template of texts builds a state whose root holds one text node per text, in order |
| TreeBuilding.UnclosedTag | tests/Unit/Core/Parser/TemplateParserTest.php:133-143 | a template that only opens a tag fails because not all tags were closed |
| TreeBuilding.UnclosedRenderExample | tests/Unit/Core/Parser/TemplateParserTest.php:133-143 | `['<f:render>']` fails because the tag is left unclosed |
| TreeBuilding.OpenThenCloseSegments | tests/Unit/Core/Parser/TemplateParserTest.php:265-284 | an opening tag followed by its closing tag builds what the self-closing tag builds |
| InterceptorExamples.TextEscapingExample | tests/Unit/Core/Parser/TemplateParserTest.php:686-733 | an escaping interceptor processes a text node once with escaping on and is never fetched with it off |
| InterceptorExamples.TextGeneralExample | tests/Unit/Core/Parser/TemplateParserTest.php:735-758 | a general interceptor processes a text node once even with escaping off |
| InterceptorExamples.AccessorEscapingExample | tests/Unit/Core/Parser/TemplateParserTest.php:478-524 | an escaping interceptor processes an accessor node once with escaping on and is never fetched with it off |
| InterceptorExamples.AccessorGeneralExample | tests/Unit/Core/Parser/TemplateParserTest.php:526-548 | a general interceptor processes an accessor node once even with escaping off |

## Left out

- `TemplateParser.php` is not part of this model. The parser rules are defined from the tests and the engine's documented behaviour. The regular expressions they stand for are assumptions, listed below, each on a line that starts with the member that encodes it.
- `render`, `evaluate` and the `execute` call inside `getLayoutName` (src/Core/Parser/ParsingState.php:119-133, 196-204) depend on the rendering context and the node implementations. `GetLayoutName` takes the execution as a function parameter.
- Template splitting (`splitTemplateAtDynamicTags`, tests/Unit/Core/Parser/TemplateParserTest.php:230-249). The fixture files and the splitter are not available, so tree building starts from already split segments.
- The data in `getExampleScriptTestValues` (tests/Unit/Core/Parser/TemplateParserTest.php:763-872) feeds no test.
- The disabled tests at tests/Unit/Core/Parser/TemplateParserTest.php:342-402 and 672-681 are left out, along with their float `123.0`.
- Cache and compiler interaction (tests/Unit/Core/Parser/TemplateParserTest.php:174-196) and template pre-processors (148-169) are collaborator plumbing driven by mocks.
- The view helper chain syntax of object accessors (tests/Unit/Core/Parser/TemplateParserTest.php:437-457) is not modelled. A non-empty path always becomes an accessor node.
- The shorthand-syntax splitting of `textAndShorthandSyntaxHandler` (612-637) is not modelled.
- `arrayHandler` (639-656) is not modelled. Attaching an array node follows the same `AttachIntercepted` step as other nodes, but no array interception point is modelled.
- Mocks and reflection are not modelled. The resolver, the template parser used for dynamic values, `validateAdditionalArguments` and the interceptors are function parameters.
- Interceptors see the node and the interception point, not the parsing state.
- Object identity is not modelled.
  - In PHP, the root and the bottom of the stack are one object, so adding a child to the open node also changes `getRootNode()`.
  - In the model they are separate values. A child is attached to its parent when the parent is closed, as the new top of the stack.
  - `BuildObjectTree` sets the state's root to the bottom of the stack once all segments are handled.
- ArrayExamples.VariableIdentifier: assumes through a `requires` that the template parser turns `{some.{index}}` into an indexed accessor. The test runs the real parser there, and that parser is not part of this model.
- ArrayExamples.VariableIdentifierInArray: makes the same assumption as VariableIdentifier.
- ParsingStates.SetRootNode: accepts any node, while the PHP type hint demands a `RootNode`. The tree building passes the bottom of the node stack, which the model does not force to be a root.
- ParsingStates.GetLayoutName: `None` from `execute` stands for a child that renders to null. A non-string result, which throws a type error in PHP, is not modelled.
- Arguments.ArgumentAt: assumes the argument pattern is white space, a non-empty run of letters, digits, `_`, `-` and `:`, then `=` and a quote right after it, the quoted value, and trailing white space. White space around `=` is not allowed.
- Arguments.SplitArguments: assumes a global match that moves on by one character where no argument starts, and resumes after a match where the match ended.
- ArrayLiterals.Follows: assumes an array part must be followed by the end of the text, a `,` or a `}`, after optional white space.
- ArrayLiterals.ValueAt: assumes the first character of a value decides its form: a letter starts a variable path, a quote starts a quoted string, `{` starts a sub-array, and anything else must be an integer. A path is a letter followed by letters, digits, `_`, `-` and `.`.
- ArrayLiterals.MatchAll: assumes the same global match as SplitArguments for array parts.
- ArraySpread.Spreads: a quoted sub-array whose first inner quote is escaped, or is followed by white space, `,` or `}`, is not shown to spread. The scanner then reads that quote as the end of the quoted value.
- Quoting.StripQuotes: the `$` of a PCRE pattern also matches before a final newline, so `preg_replace` would strip a closing quote followed by `\n`. The model strips only a quote that is truly last.
- ArgumentTrees.IsIntegerString: takes only plain optionally-signed digit runs as numbers. PHP's `is_numeric` also allows surrounding white space and other number forms, which the model leaves as text.
- ArrayLiterals.NumberAt: reads integers only, because floats are not modelled. A `.` ends the number, so `key: 1.5` is not read as a float.
- ArrayLiterals.KeyPrefix: only bare words are keys. A quoted key such as `"a": 1` is not read as a key.
- Scanning.BraceEnd: counts braces without regard to quotes, so a `}` inside a quoted string closes a block. This is an assumption about the parser's patterns.
- QuotedTokens.QuotedTokenEnd: lets a backslash escape any character inside a quoted token. This is an assumption about the parser's patterns.
- PHP integer overflow is not modelled. Numbers are unbounded integers.
