# leetcode-practice test harness, in Dafny

This project models the Java test harness of the `leetcode-practice`
repository. The harness is what each solution's `main` calls: it reads a
JSON file of test cases, finds the solution method by name, turns each
test's input text into Java arguments, invokes the method, renders the
returned value as text, and compares that text with the expected output
after normalising both. It records a result per test in a results
manager, can time each test, estimates the input size of each test, and
from those sizes and times guesses a complexity class. It can also write
the results back out as JSON.

The harness exists in two generations, and both are modelled:

- `lib/shared/*`: the typed harness. Its JSON reader keeps values typed, its type parser turns text into `int[]`, `List<List<Integer>>`, `TreeNode` and so on, and its executor checks the number of values against the number of parameters.
- `lib/*`: the first generation. Its reader handles strings only. Its executor accepts single-parameter methods taking a `TreeNode`, an integer or a `String`. `TestRunner` is a third, self-contained copy of the same flow.

Four solutions exercised by the harness are modelled as well: the
`DemoSolution` examples, the preorder traversal solution (iterative and
recursive) and `HelloWorldSolution`.

The modules follow the source files:

| module | models |
|---|---|
| `Wrappers` | `Option`, and `Result`: a Java exception is an `Err` carrying its class and `getMessage()` |
| `JavaString` | the `java.lang.String`, `Integer` and `Long` operations the harness relies on: `trim`, `substring`, `split`, `replace`, `parseInt`, `parseLong`, `parseDouble`'s grammar |
| `Scanner` | the character-by-character splitters (`splitArrayElements`, `splitJsonPairs`, `splitNestedArrays`, `splitJsonObjects`, `parseJsonArray`'s loop) |
| `TreeCodec` | `TreeNode`: `fromArray` over heap nodes, `toArray`, `parseArray`, `toString` |
| `JavaValue` | the Java values the harness passes around, and `String.valueOf` |
| `JsonProcessor` | `lib/shared/JsonProcessor.java` |
| `JsonRoundTrip` | what `parseJsonValue` reads back from `objectToJsonString` |
| `LegacyJson` | `lib/JsonProcessor.java`, and `TestRunner.SimpleJsonParser`, which is the same code |
| `TypeParser` | `lib/shared/TypeParser.java` |
| `OutputFormatter` | `lib/OutputFormatter.java` and the shared executor's `validateResult` |
| `TestData` | both `TestDataModels.java`, and `TestRunner`'s `TestCase`, which has the same four string fields |
| `ResultsManager` | `lib/TestResultsManager.java` |
| `Executor` | `lib/shared/TestExecutor.java` |
| `LegacyExecutor` | `lib/TestExecutor.java` |
| `PerformanceAnalyzer` | `lib/shared/PerformanceAnalyzer.java`; the first generation's gates, conversion and size estimate are the same code |
| `ComplexityPatterns` | the pattern detection of `lib/PerformanceAnalyzer.java` |
| `TestRunner` | `lib/TestRunner.java` |
| `DemoSolution` | `lib/tests/examples/DemoSolution.java`; `SimpleTest.TestSolution` repeats its traversal and binary search |
| `PreorderTraversal` | the preorder traversal solution |
| `HelloWorld` | the hello-world solution |

The Java platform modelled is JDK 21. Two behaviours of the harness
depend on it: `\b` in a regular expression counts ASCII letters,
digits and `_` as word characters (so since JDK 19), together with a
non-spacing mark that follows a letter or digit; the model keeps the
ASCII part only (see "## Left out"), and a
`NullPointerException` the JVM raises carries a detailed message, which
`executeTest` records as the test's error (so since JDK 15).

Reflection is modelled by its results. A solution method is its name and
its parameter classes. Invoking it is a function from arguments to a
`Result`, passed in as a parameter. Clock and memory readings are passed
in as well.

Classes whose fields the source updates in place are Dafny classes:
`TestResultsManager`, `TestRunner.TestResults` and `TreeNode`. Their
methods carry `modifies` clauses and state the new state in full.
Each loop in the source is a method with a loop, proved equal to a
specification function. The properties are proved about those functions.

## Where the code and its documented behaviour differ

The model follows the code in each case.

- The splitters never fail. Unbalanced brackets or quotes just leave the depth or the quote flag set, and the rest of the text is not cut.
- `TreeNode.parseArray` does not check its brackets. It drops the first and last characters whatever they are, so `[1,2,3` reads as `[1,2]`. The typed parsers do check: `[1,2,3` is rejected there, with the parser's format message, not one about the imbalance.
- An exception thrown by the solution reaches the executors wrapped in an `InvocationTargetException`, whose `getMessage()` is `null`. Such a test therefore records no error message and counts as failed, not as an error.

## Model

| member | source | states |
|---|---|---|
| Scanner.ScanAppend | lib/shared/TypeParser.java:421-461 | scanning `a + b` is scanning `b` from the state `a` leaves |
| Scanner.Split | lib/shared/TypeParser.java:421-461 | the shared splitting loop returns exactly `SplitTop`: the trimmed pieces between top-level cuts, and the trimmed non-empty rest |
| Scanner.FoldState | lib/shared/JsonProcessor.java:276-322 | the loop state after `n` characters is the scan of the first `n` characters |
| Scanner.SplitTrimmed | lib/shared/JsonProcessor.java:453-498 | every piece a splitter returns is its own trim |
| Scanner.SplitShort | lib/shared/TypeParser.java:421-461 | no piece is longer than the text split |
| Scanner.SplitSingle | lib/shared/TypeParser.java:421-461 | text with no cut is one trimmed piece, and empty text is no piece |
| Scanner.CleanQuoted | lib/shared/TestExecutor.java:208-258 | a quoted string without quotes or backslashes never cuts, even with commas and brackets inside |
| Scanner.SplitCons | lib/shared/TypeParser.java:421-461 | a clean first piece followed by a comma comes off the front, trimmed |
| Scanner.SplitJoined | lib/shared/TypeParser.java:421-461 | clean pieces joined with commas split back into those pieces, trimmed (all three dialects) |
| Scanner.SplitNestedArrays | lib/shared/TypeParser.java:466-505 | the row loop returns exactly `SplitRows`: each bracketed segment at depth 0, in order |
| Scanner.RowsShape | lib/shared/TypeParser.java:466-505 | every row begins with `[` and ends with `]` |
| Scanner.RowsAppend | lib/shared/TypeParser.java:466-505 | after settled text, the rows of what follows are found as if it stood alone |
| Scanner.RowsJoin | lib/shared/TypeParser.java:466-505 | rows joined by commas split back into the same rows |
| Scanner.SplitJsonObjects | lib/shared/JsonProcessor.java:95-124 | the object loop returns exactly `SplitObjects`: each brace-balanced object, trimmed, separators skipped |
| Scanner.ObjectsShift | lib/JsonProcessor.java:61-90 | text in front of the rest does not change how the rest splits |
| Scanner.SplitObjectsJoin | lib/TestRunner.java:42-66 | flat objects joined by any run of commas and whitespace split back into those objects |
| TreeCodec.TreeNode.constructor | lib/TreeNode.java:13-15 | a new node holds its value and has no children |
| TreeCodec.FromArray | lib/TreeNode.java:29-58 | `fromArray` on heap nodes: null exactly for an empty array or a null first slot; otherwise fresh, acyclic, linked nodes whose tree value is `FromArraySpec` |
| TreeCodec.ToArray | lib/TreeNode.java:94-119 | the breadth-first walk of linked nodes returns `ToArraySpec` of their tree value |
| TreeCodec.LevelWalk | lib/TreeNode.java:99-111 | the queue loop writes `LevelSlots` of the tree: each dequeued node's value in level order, and a null for each missing child |
| TreeCodec.DropTrailingNulls | lib/TreeNode.java:113-116 | removing nulls from the end gives `StripNulls`: the longest prefix that is empty or ends in a value |
| TreeCodec.RoundTrip | lib/TreeNode.java:29-119 | `fromArray(toArray(t))` rebuilds `t`, shape and values |
| TreeCodec.ToArrayFromArray | lib/TreeNode.java:29-119 | `toArray(fromArray(a))` is `a` for every array that `toArray` produces |
| TreeCodec.ToArrayShape | lib/TreeNode.java:94-119 | one value per node, the root's value first, never a trailing null |
| TreeCodec.Example | lib/TreeNode.java:29-58 | `[1,null,2,3]` is 1 with right child 2, whose left child is 3 |
| TreeCodec.ParseElementsOk | lib/TreeNode.java:66-86 | the parse succeeds exactly when every element does, and then holds their values in order |
| TreeCodec.ParseElementsError | lib/TreeNode.java:66-86 | the first element that fails decides the exception |
| TreeCodec.ParseArray | lib/TreeNode.java:66-86 | `parseArray` into a fresh `Integer[]` returns exactly `ParseArraySpec` |
| TreeCodec.ParseArrayShort | lib/TreeNode.java:66-86 | text shorter than two characters throws from `substring` |
| TreeCodec.ParseListString | lib/TreeNode.java:66-86 | `parseArray` reads back what `List.toString` writes, for 32-bit values |
| TreeCodec.TreeStringRoundTrip | lib/TreeNode.java:122-124 | `fromArray(parseArray(t.toString()))` is `t` for every tree of 32-bit values |
| JavaValue.ShowAllAt | lib/OutputFormatter.java:95-109 | each list element is shown by its own `toString` |
| JsonProcessor.Put | lib/shared/JsonProcessor.java:334-372 | `put` keeps an existing key in its place with the new value, and appends a new key |
| JsonProcessor.PutDistinct | lib/shared/JsonProcessor.java:334-372 | `put` keeps the keys distinct |
| JsonProcessor.EscapeByChar | lib/shared/JsonProcessor.java:556-563 | the chain of `replace` calls escapes character by character: no replacement is rewritten by a later one |
| JsonProcessor.UnescapeJsonString | lib/shared/JsonProcessor.java:142-211 | the quote check and decoding loop return exactly `Unescape` |
| JsonProcessor.DecodeEscapes | lib/shared/JsonProcessor.java:142-211 | the decoding loop appends exactly the decoded text |
| JsonProcessor.EscapeRoundTrip | lib/shared/JsonProcessor.java:142-211 | `unescapeJsonString("\"" + escapeJsonString(s) + "\"") == s` for every string |
| JsonProcessor.UnknownEscapeKept | lib/shared/JsonProcessor.java:142-211 | a backslash before a non-escape letter is kept with that letter |
| JsonProcessor.BadUnicodeKept | lib/shared/JsonProcessor.java:142-211 | `\u` not followed by four characters forming a code unit is kept verbatim |
| JsonProcessor.ParseJsonValue | lib/shared/JsonProcessor.java:380-419 | `null` exactly for the trimmed token `null` |
| JsonProcessor.ParseJsonArray | lib/shared/JsonProcessor.java:427-445 | an array text reads as a `List` whenever it reads |
| JsonProcessor.ParseJsonObjectRaw | lib/shared/JsonProcessor.java:334-372 | text not in braces throws `Invalid JSON object format`; a map read from an object has distinct keys |
| JsonProcessor.ParseTestCasesRaw | lib/shared/JsonProcessor.java:59-84 | the reading loop returns exactly `TestCasesRaw` |
| JsonProcessor.ObjectToJsonString | lib/shared/JsonProcessor.java:506-548 | the writing loops return exactly `JsonText` of the value |
| JsonProcessor.ParseTestCases | lib/shared/JsonProcessor.java:30-51 | the two conversion loops return exactly `TestCases` |
| JsonProcessor.TestCasesLookup | lib/shared/JsonProcessor.java:30-51 | a key is in a converted test case exactly when the raw case has it, holding the String itself or the JSON text of any other value |
| JsonRoundTrip.ReadBack | lib/shared/JsonProcessor.java:380-548 | `parseJsonValue(objectToJsonString(v)) == v` for null, booleans, longs, strings, pointed doubles, lists and maps with plain distinct keys |
| JsonRoundTrip.IntReadAsLong | lib/shared/JsonProcessor.java:380-419 | an `Integer` written out is read back as a `Long` of the same value |
| JsonRoundTrip.SplitCommaSpace | lib/shared/JsonProcessor.java:453-498 | parts joined by `", "` that trim to themselves split back unchanged |
| LegacyJson.Unquote | lib/JsonProcessor.java:167-173 | throws exactly for a lone `"` after trimming; text not in quotes is only trimmed |
| LegacyJson.UnquoteRequoted | lib/JsonProcessor.java:167-173 | requoting what `unquote` removed quotes from gives the trimmed text back |
| LegacyJson.UnquoteQuoted | lib/TestRunner.java:115-121 | quoting any text and unquoting it gives the text back |
| LegacyJson.BracesOptional | lib/JsonProcessor.java:98-122 | a body reads the same with or without its braces |
| LegacyJson.NoColonDropped | lib/JsonProcessor.java:98-122 | a pair without a colon changes nothing, wherever it stands |
| LegacyJson.ParseJsonObject | lib/TestRunner.java:68-91 | the pair loop returns exactly `ObjectOf` |
| LegacyJson.PutOne | lib/TestRunner.java:81-88 | one pair of the loop is `PutPair`: skipped without a colon, otherwise key then value unquoted and put |
| LegacyJson.BracketsIgnored | lib/JsonProcessor.java:133-159 | an unquoted array value such as `[1,2]` is cut at its comma |
| LegacyJson.ParseTestCases | lib/JsonProcessor.java:25-50 | the reading loop returns exactly `TestCases` |
| LegacyJson.ObjectReadBack | lib/JsonProcessor.java:98-122 | `parseJsonObject` reads back the object text of a test case |
| LegacyJson.FileReadBack | lib/TestRunner.java:17-40 | a test file written from string test cases with bare keys and values reads back into those maps |
| TypeParser.StringValue | lib/shared/TypeParser.java:385-416 | `parseStringValue`: null exactly for the token `null`; otherwise it fails exactly when the unquoting does |
| TypeParser.UnquotedThrows | lib/shared/TypeParser.java:385-416 | the only text whose unquoting throws is `"\""` |
| TypeParser.StringValuePlain | lib/shared/TypeParser.java:385-416 | trimmed text without quotes or backslashes, other than `null`, is its own value |
| TypeParser.StringValueQuoted | lib/shared/TypeParser.java:385-416 | a quoted string, blanks around it included, reads back as its inside |
| TypeParser.StringValueEscapedQuotes | lib/shared/TypeParser.java:385-416 | escaped quotes just inside the quotes come off too |
| TypeParser.MapParseOk | lib/shared/TypeParser.java:157-173 | an array parse succeeds exactly when every piece does, holding their values in order |
| TypeParser.MapParseError | lib/shared/TypeParser.java:175-192 | the first failing piece decides the exception |
| TypeParser.ParseEach | lib/shared/TypeParser.java:157-268 | the element loop returns exactly `MapParse` |
| TypeParser.BooleanValue | lib/shared/TypeParser.java:143-145 | fails exactly when the unquoting does; otherwise true exactly for `true` in any case |
| TypeParser.CharacterValue | lib/shared/TypeParser.java:147-153 | a character exactly when the string value has length one, else `IllegalArgumentException` |
| TypeParser.Array1D | lib/shared/TypeParser.java:157-268 | unbracketed text throws the parser's format message; a result is an array of the parser's element type |
| TypeParser.Array1DItems | lib/shared/TypeParser.java:157-268 | for bracketed text, one element per top-level piece, each that piece's parse, succeeding exactly when every piece parses |
| TypeParser.Array2D | lib/shared/TypeParser.java:272-326 | text not in `[[...]]` throws the parser's format message; a result is an array of rows of the parser's type |
| TypeParser.Array2DRows | lib/shared/TypeParser.java:272-326 | for text in `[[...]]`, one row per bracketed segment, each that segment's one-dimensional parse, succeeding exactly when every row parses |
| TypeParser.EmptyGridRejected | lib/shared/TypeParser.java:272-288 | `[]` is rejected by the two-dimensional parsers |
| TypeParser.BoxRows | lib/shared/TypeParser.java:345-361 | the row loop returns exactly `RowLists`: one list per row, in order |
| TypeParser.Fallback | lib/shared/TypeParser.java:510-548 | a class the fallback does not know is unsupported; a `TreeNode` parameter reads a tree |
| TypeParser.ParseParameter | lib/shared/TypeParser.java:31-127 | null input or the token `null` gives null; otherwise the effective type's parse of the trimmed text, and its failure rethrown as a `RuntimeException` naming the input and the type; the `ListNode` case goes to the throwing stub |
| TypeParser.ListNodeAlwaysThrows | lib/shared/TypeParser.java:371-374 | under the `ListNode` type every input but null throws the stub's `RuntimeException`, wrapped by `parseParameter`'s `catch` |
| TypeParser.UnsupportedType | lib/shared/TypeParser.java:31-127 | an unknown name for an unknown class is reported unsupported |
| TypeParser.SimpleNameIsHint | lib/shared/TypeParser.java:31-127 | without a hint, the simple name decides exactly as a hint would |
| TypeParser.IntegerArrayRoundTrip | lib/shared/TypeParser.java:175-192 | `Integer[]` reads back `List.toString` text, nulls included |
| TypeParser.IntArrayRoundTrip | lib/shared/TypeParser.java:157-173 | `int[]` reads back `Arrays.toString` text |
| TypeParser.StringArrayRoundTrip | lib/shared/TypeParser.java:194-210 | `String[]` reads back quoted strings, commas and brackets inside them included |
| TypeParser.IntMatrixRoundTrip | lib/shared/TypeParser.java:272-288 | `int[][]` reads back a non-empty matrix written row by row |
| TypeParser.ListParameterRoundTrip | lib/shared/TypeParser.java:31-127 | through `parseParameter`, list text reads back under `Integer[]`, `List<Integer>`, and `int[]` when null-free |
| TypeParser.MatrixParameterRoundTrip | lib/shared/TypeParser.java:31-127 | through `parseParameter`, matrix text reads back under `int[][]` and `List<List<Integer>>` |
| TypeParser.TreeParameterRoundTrip | lib/shared/TypeParser.java:365-369 | `TreeNode` reads back the text `TreeNode.toString` writes |
| OutputFormatter.AfterOpenTight | lib/OutputFormatter.java:29-53 | after `\[\s+` is replaced, no `[` is followed by whitespace |
| OutputFormatter.BeforeCloseTight | lib/OutputFormatter.java:29-53 | after `\s+\]` is replaced, no `]` is preceded by whitespace |
| OutputFormatter.ReplaceWordAt | lib/OutputFormatter.java:29-53 | the word pass changes exactly the first letter of each whole-word occurrence |
| OutputFormatter.ReplaceWordGone | lib/OutputFormatter.java:29-53 | after the word pass the word no longer occurs whole |
| OutputFormatter.ReplaceWordAbsent | lib/OutputFormatter.java:29-53 | without a whole-word occurrence nothing changes, so `TRUE` is kept |
| OutputFormatter.NormalizeCanonical | lib/OutputFormatter.java:29-53 | every normalised string has tight brackets and parentheses and no whole-word `True`/`False` |
| OutputFormatter.NormalizeFixed | lib/OutputFormatter.java:29-53 | a canonical trimmed text without `", "` is its own normal form |
| OutputFormatter.NormalizeTrim | lib/OutputFormatter.java:29-53 | surrounding whitespace never matters |
| OutputFormatter.CommaSpaceJoin | lib/OutputFormatter.java:29-53 | the comma pass turns a `", "`-joined list body into the `","`-joined one |
| OutputFormatter.ListNormalizes | lib/shared/TestExecutor.java:317-321 | `[1, 2, 3]` as Java prints a list matches `[1,2,3]` |
| OutputFormatter.CommaPassSpaced | lib/OutputFormatter.java:29-53 | a `", "` survives the comma pass only where a comma had two spaces after it |
| OutputFormatter.NormalizeNotIdempotent | lib/OutputFormatter.java:29-53 | normalising `a,  b` twice differs from normalising it once |
| OutputFormatter.ValidateSymmetric | lib/shared/TestExecutor.java:317-321 | agreement is symmetric |
| OutputFormatter.FormatItems | lib/OutputFormatter.java:95-219 | the `StringBuilder` loop writes exactly the bracketed, comma-joined elements |
| OutputFormatter.ResultToString | lib/OutputFormatter.java:64-87 | `resultToString` returns exactly `ResultText`, following the `instanceof` chain |
| OutputFormatter.IntegerArrayRoundTrip | lib/OutputFormatter.java:117-130 | an `Integer[]` result is written in the form `TreeNode.parseArray` reads back, nulls included |
| OutputFormatter.InputForDisplay | lib/OutputFormatter.java:240-253 | null is `null`; up to 100 characters are kept; longer input becomes its first 97 characters and `...` |
| OutputFormatter.HighlightDifferences | lib/OutputFormatter.java:290-303 | the loop returns the marker line: `^` exactly where the space-padded strings differ |
| OutputFormatter.MarkersSymmetric | lib/OutputFormatter.java:290-303 | markers are symmetric and a string has none against itself |
| OutputFormatter.MarkersFindDifference | lib/OutputFormatter.java:290-303 | two different strings of equal length get a marker |
| OutputFormatter.FormatComparison | lib/OutputFormatter.java:265-278 | a `Diff:` line exactly when the normalised forms differ; a null side then throws the `NullPointerException` of its `length()`, `expected`'s first |
| OutputFormatter.NullMatchesNullText | lib/OutputFormatter.java:265-278 | null and the text `null` compare equal |
| OutputFormatter.FormatTestSummary | lib/OutputFormatter.java:329-340 | starts with the name, ends with the status, and is as long as the name padded to 30 columns, a space and the status |
| TestData.StringOrDefault | lib/shared/TestDataModels.java:50-76 | the default only when the key is absent, `null` kept, anything else not a string a `ClassCastException` |
| TestData.ConvertListToJsonArray | lib/shared/TestDataModels.java:85-96 | the buffer loop returns exactly `ListToJsonArray` |
| TestData.InputTypes | lib/shared/TestDataModels.java:50-76 | throws exactly for a list holding a null; a list gives one type name per element |
| TestData.NewTestCase | lib/shared/TestDataModels.java:50-76 | the constructor succeeds exactly when `name`, `expected` and `description` each cast to a string and no `inputTypes` element is null; `input` is `InputText` |
| TestData.TypeHintsFromData | lib/shared/TestDataModels.java:103-105 | type hints exactly when the map holds a non-empty list under `inputTypes` |
| TestData.DefaultsWhenAbsent | lib/shared/TestDataModels.java:50-76 | an empty map gives `Unknown` and empty strings |
| TestData.GetOrDefault | lib/TestDataModels.java:37-42 | the default exactly when the key is absent |
| TestData.PlainCasesFromFile | lib/TestDataModels.java:37-42 | string test cases written to a file read back with their values, defaults exactly where a key was not written |
| ResultsManager.PassedCount | lib/TestResultsManager.java:386-388 | the number of passed results, at most their number |
| ResultsManager.ValidCount | lib/TestResultsManager.java:260-284 | the number of measured passes, never more than the passes |
| ResultsManager.MemoryMax | lib/TestResultsManager.java:260-284 | never negative, at least every measured memory figure, and 0 or one of them |
| ResultsManager.EscapeJsonByChar | lib/TestResultsManager.java:208-213 | the replacement chain escapes character by character |
| ResultsManager.EscapedIsOneLine | lib/TestResultsManager.java:208-213 | escaped text has no raw line break, return or tab, and every quote follows a backslash |
| ResultsManager.BackslashNotEscaped | lib/TestResultsManager.java:208-213 | a backslash and `n` is written as a line break is |
| ResultsManager.EscapeJsonRoundTrip | lib/TestResultsManager.java:208-213 | a JSON reader gets backslash-free text back from its escaping |
| ResultsManager.ResultObjectLines | lib/TestResultsManager.java:161-198 | a result object is its field lines joined by `",\n"` in braces; `performance` and `error` only when present |
| ResultsManager.ResultsJsonShape | lib/TestResultsManager.java:161-198 | one object per result in order, no comma after the last, inside `[\n` and `]` |
| ResultsManager.ResultsPathOfJson | lib/TestResultsManager.java:145-151 | `stem.json` becomes `stem-results.json`, never the test file itself |
| ResultsManager.TestResultsManager.constructor | lib/TestResultsManager.java:38-44 | no results, counts 0, reporting off, empty path |
| ResultsManager.TestResultsManager.AddResult | lib/TestResultsManager.java:61-73 | one result appended, total counted, pass counted exactly when passed, counters still agree |
| ResultsManager.TestResultsManager.EnablePerformanceReporting | lib/TestResultsManager.java:81-83 | the flag set, nothing else changed |
| ResultsManager.TestResultsManager.SetTestFilePath | lib/TestResultsManager.java:93-95 | the path set, nothing else changed |
| ResultsManager.TestResultsManager.GenerateResultsJson | lib/TestResultsManager.java:161-198 | the loop returns exactly `ResultsJson` of the results |
| ResultsManager.TestResultsManager.CalculatePerformanceStats | lib/TestResultsManager.java:260-284 | the loop returns the count of measured passes and the total and maximum of their memory |
| Executor.FirstNamed | lib/shared/TestExecutor.java:97-107 | the first position with the name, or none when no method has it |
| Executor.FindSolutionMethod | lib/shared/TestExecutor.java:97-107 | the first method named so, else `NoSuchMethodException` |
| Executor.UnquoteValue | lib/shared/TestExecutor.java:266-277 | at most one pair of surrounding quotes removed |
| Executor.UnquoteValueQuoted | lib/shared/TestExecutor.java:266-277 | quoting then unquoting gives the text back |
| Executor.UnquoteLoneQuote | lib/shared/TestExecutor.java:266-277 | a lone quote is kept |
| Executor.ParseJsonArray | lib/shared/TestExecutor.java:208-258 | the splitting loop returns exactly `JsonArrayValues` |
| Executor.JsonArrayRoundTrip | lib/shared/TestExecutor.java:208-258 | quoted strings joined by `", "` in brackets read back as those strings |
| Executor.InputValues | lib/shared/TestExecutor.java:173-200 | as many values as parameters, or the trimmed input alone |
| Executor.ParseInputValues | lib/shared/TestExecutor.java:173-200 | the method returns exactly `InputValues` |
| Executor.ListInputValues | lib/shared/TestExecutor.java:173-200 | a list input splits back into its elements' texts |
| Executor.ParseAll | lib/shared/TestExecutor.java:154-160 | a successful loop yields one argument per parameter |
| Executor.ParseAllOutcome | lib/shared/TestExecutor.java:154-160 | the loop succeeds exactly when every parameter parses, then holds the parsed values in order; otherwise it throws the first failure |
| Executor.ParseOne | lib/shared/TestExecutor.java:156-157 | parameter `i` is parsed with its own value, and with its own type hint exactly when the test case has hints |
| Executor.FirstError | lib/shared/TestExecutor.java:128-161 | the first failing parameter decides the error |
| Executor.MethodArguments | lib/shared/TestExecutor.java:128-161 | no arguments for no parameters; count mismatches throw `RuntimeException`; one argument per parameter |
| Executor.CountMismatchIsOne | lib/shared/TestExecutor.java:128-161 | the only value-count mismatch is the whole input as one value |
| Executor.ArgumentsParsed | lib/shared/TestExecutor.java:128-161 | with the counts right, the parameters are parsed in order |
| Executor.ParseMethodArguments | lib/shared/TestExecutor.java:128-161 | the argument loop returns exactly `MethodArguments` |
| Executor.ParseArguments | lib/shared/TestExecutor.java:154-160 | the loop filling the argument array returns exactly `ParseAll` |
| Executor.PassedIff | lib/shared/TestExecutor.java:38-83 | passed exactly when the description exists, arguments parse, the method returns, and the normalised texts agree |
| Executor.NullDescriptionIsError | lib/shared/TestExecutor.java:329-335 | a test case without a description is recorded as failed with the `NullPointerException` message of `printTestHeader`, so `hasError()` holds |
| Executor.OutcomeFields | lib/shared/TestExecutor.java:38-83 | the record keeps the case's fields; output and measurements only for a returned call |
| Executor.ErrorMeansFailed | lib/shared/TestExecutor.java:38-83 | an error recorded means not passed and not measured |
| Executor.ExecuteTest | lib/shared/TestExecutor.java:38-83 | exactly one `Outcome` record added to the manager, nothing else changed |
| LegacyExecutor.StringParameter | lib/TestExecutor.java:162-175 | throws exactly for `"\""`; otherwise one value |
| LegacyExecutor.StringParameterQuoted | lib/TestExecutor.java:162-175 | a quoted input is passed without its quotes, even `"null"` |
| LegacyExecutor.StringParameterPlain | lib/TestExecutor.java:162-175 | other input is passed unchanged |
| LegacyExecutor.LegacyArguments | lib/TestExecutor.java:122-154 | no arguments for no parameters; two or more parameters unsupported; one value otherwise |
| LegacyExecutor.IntegerArgumentRoundTrip | lib/TestExecutor.java:122-154 | an `int` parameter reads back any 32-bit decimal |
| LegacyExecutor.TreeArgumentRoundTrip | lib/TestExecutor.java:122-154 | a `TreeNode` parameter reads back `TreeNode.toString` text |
| LegacyExecutor.LegacyPassedIff | lib/TestExecutor.java:36-81 | passed exactly when the argument parses, the method returns, and the normalised texts agree |
| LegacyExecutor.SeveralParametersUnsupported | lib/TestExecutor.java:122-154 | several parameters always record the unsupported-types error |
| LegacyExecutor.ParseLegacyArguments | lib/TestExecutor.java:122-154 | the method returns exactly `LegacyArguments` |
| LegacyExecutor.LegacyExecuteTest | lib/TestExecutor.java:36-81 | exactly one `LegacyOutcome` record added, nothing else changed |
| PerformanceAnalyzer.TruncDiv | lib/shared/PerformanceAnalyzer.java:36-73 | Java's `/` for a positive divisor: the quotient rounded toward zero |
| PerformanceAnalyzer.MeasurementBounds | lib/shared/PerformanceAnalyzer.java:36-73 | memory never negative; a failed or empty measurement is zeros; otherwise the run count and the rounded-down share of time |
| PerformanceAnalyzer.MeasurePerformance | lib/shared/PerformanceAnalyzer.java:36-73 | the warm-up and measured loops return exactly `Measurement` |
| PerformanceAnalyzer.EstimateInputSize | lib/shared/PerformanceAnalyzer.java:198-235 | never below -1; -1 exactly for a lone `"`; `[]` is 0 |
| PerformanceAnalyzer.EstimateSize | lib/shared/PerformanceAnalyzer.java:198-235 | the counting loop returns exactly `EstimateInputSize` |
| PerformanceAnalyzer.IntArraySize | lib/shared/PerformanceAnalyzer.java:198-235 | `[1,2,3]` is estimated at its number of elements |
| PerformanceAnalyzer.IntInputSize | lib/shared/PerformanceAnalyzer.java:198-235 | a 32-bit integer is estimated at 1 |
| PerformanceAnalyzer.ValidResults | lib/shared/PerformanceAnalyzer.java:139-166 | the measured passes, in order, as many as `ValidCount` |
| PerformanceAnalyzer.FilterValid | lib/shared/PerformanceAnalyzer.java:139-166 | the filtering loop returns exactly `ValidResults` |
| PerformanceAnalyzer.Point | lib/shared/PerformanceAnalyzer.java:174-187 | throws exactly when the input is missing; a point has positive size and time |
| PerformanceAnalyzer.DataPoints | lib/shared/PerformanceAnalyzer.java:174-187 | a failure is a `NullPointerException`; otherwise at most one usable point per result |
| PerformanceAnalyzer.ConvertToDataPoints | lib/shared/PerformanceAnalyzer.java:174-187 | the conversion loop returns exactly `DataPoints` |
| PerformanceAnalyzer.DataPointsErrorStays | lib/shared/PerformanceAnalyzer.java:174-187 | once a prefix throws, the whole list throws the same |
| PerformanceAnalyzer.InsertPermutes | lib/shared/PerformanceAnalyzer.java:139-166 | inserting adds exactly the one point |
| PerformanceAnalyzer.SortBySizeSorted | lib/shared/PerformanceAnalyzer.java:139-166 | the sorted points ascend by size and are a permutation of the input |
| PerformanceAnalyzer.InsertAt | lib/shared/PerformanceAnalyzer.java:139-166 | one in-place insertion pass gives `InsertBySize` of the prefix |
| PerformanceAnalyzer.SortPoints | lib/shared/PerformanceAnalyzer.java:139-166 | the in-place sort of the array gives `SortBySize` |
| PerformanceAnalyzer.Characteristics | lib/shared/PerformanceAnalyzer.java:274-294 | the confidence is one of 0.9, 0.7, 0.6, 0.8, so within 0.6 and 0.9 |
| PerformanceAnalyzer.MaxInputSize | lib/shared/PerformanceAnalyzer.java:296-302 | at least every size, and 0 or one of them |
| PerformanceAnalyzer.ConfidenceZeroIffGated | lib/shared/PerformanceAnalyzer.java:139-166 | zero confidence exactly when fewer than three measured passes or usable points; otherwise between 0.48 and 0.9 |
| PerformanceAnalyzer.SmallInputNoteIff | lib/shared/PerformanceAnalyzer.java:296-302 | the small-input note and lowered confidence exactly when no size reached 100 |
| PerformanceAnalyzer.AnalysedPoints | lib/shared/PerformanceAnalyzer.java:139-187 | a full analysis looks at the usable points of the measured passes, ascending by size |
| PerformanceAnalyzer.AnalyzeComplexityOf | lib/shared/PerformanceAnalyzer.java:139-166 | the method with its loops returns exactly `AnalyzeComplexity` |
| ComplexityPatterns.Score | lib/PerformanceAnalyzer.java:299-308 | never negative; at most 1 for plausible statistics; 1 for a steady positive mean |
| ComplexityPatterns.MaxScore | lib/PerformanceAnalyzer.java:240-264 | at least every score and equal to one of them |
| ComplexityPatterns.LabelIsFirstMaximum | lib/PerformanceAnalyzer.java:269-293 | the `k`-th label exactly when the `k`-th score in preference order is the first to reach the maximum |
| ComplexityPatterns.ConfidenceIsBestScore | lib/PerformanceAnalyzer.java:240-264 | the confidence is the best score, within 0 and 1 for plausible statistics, at least 0.3 for a named pattern |
| ComplexityPatterns.GatesOfAnalysis | lib/PerformanceAnalyzer.java:136-163 | insufficient data exactly when fewer than three measured passes; zero confidence when cut short |
| ComplexityPatterns.AnalyzeComplexityOf | lib/PerformanceAnalyzer.java:136-163 | the method with its loops returns exactly `AnalyzeComplexity` |
| TestRunner.PassedOf | lib/TestRunner.java:200-216 | the passed results, at most all of them |
| TestRunner.AllPassedIff | lib/TestRunner.java:200-216 | all passed exactly when the passed count reaches the number of results |
| TestRunner.TestResults.constructor | lib/TestRunner.java:203-207 | empty, zero counters, reporting off |
| TestRunner.TestResults.AddResult | lib/TestRunner.java:209-216 | one result appended, total up by one, passed up exactly when it passed |
| TestRunner.TestResults.EnablePerformanceReporting | lib/TestRunner.java:218-220 | the flag set, nothing else changed |
| TestRunner.RunnerArguments | lib/TestRunner.java:481-510 | as the legacy executor, except that a `String` parameter gets the input with every quote removed |
| TestRunner.AgreesWithLegacy | lib/TestRunner.java:481-510 | every parameter but `String` parses as the legacy executor does |
| TestRunner.QuotedStringArgument | lib/TestRunner.java:481-510 | a quoted string without quotes inside arrives without its quotes |
| TestRunner.NullWordIsText | lib/TestRunner.java:481-510 | the word `null` is text here, where the legacy executor passes null |
| TestRunner.ParseRunnerArguments | lib/TestRunner.java:481-510 | the method returns exactly `RunnerArguments` |
| TestRunner.RunnerText | lib/TestRunner.java:516-534 | null is `null`; otherwise `", "` becomes `","` |
| TestRunner.CommaFreeList | lib/TestRunner.java:516-534 | a list of comma-free elements is written `[a,b,c]` |
| TestRunner.AgreesWithFormatter | lib/TestRunner.java:516-534 | on such lists the runner writes the shared formatter's text |
| TestRunner.IntegerArrayRoundTrip | lib/TestRunner.java:516-534 | an `Integer[]` result reads back through `TreeNode.parseArray` |
| TestRunner.RunnerPassedIff | lib/TestRunner.java:427-476 | passed exactly when the argument parses, the method returns, and the text equals the expected text |
| TestRunner.RunnerOutcomeFields | lib/TestRunner.java:427-476 | name, input and expected kept; a profiled test records its measurement, zeros when the method throws |
| TestRunner.RunSingleTest | lib/TestRunner.java:427-476 | exactly one `RunnerOutcome` added, counters following |
| TestRunner.RunTests | lib/TestRunner.java:370-399 | a missing method records nothing; otherwise one outcome per case, in order |
| TestRunner.RunCases | lib/TestRunner.java:386-391 | each test case in turn adds exactly its `RunnerOutcome`, in order, and the counters stay valid |
| DemoSolution.PreorderLength | lib/tests/examples/DemoSolution.java:13-25 | the traversal has one value per node |
| DemoSolution.LeftSpineFirst | lib/tests/examples/DemoSolution.java:13-25 | the traversal starts with the root and its left edge |
| DemoSolution.PreorderHelper | lib/tests/examples/DemoSolution.java:19-25 | appends the subtree's preorder to the list |
| DemoSolution.PreorderTraversal | lib/tests/integration/SimpleTest.java:18-30 | returns `Preorder(root)` |
| DemoSolution.SearchInsert | lib/tests/integration/SimpleTest.java:32-47 | a position in `[0, n]`; on an ascending array a position of the target or where it goes |
| DemoSolution.SearchMatrix | lib/tests/examples/DemoSolution.java:56-83 | false for null or empty input; true only when the target occurs; on a sorted rectangular matrix exactly when it occurs; a short row throws |
| DemoSolution.ContainsNearbyDuplicate | lib/tests/examples/DemoSolution.java:88-99 | true exactly when two equal values are at most `k` apart |
| DemoSolution.NoNewDuplicate | lib/tests/examples/DemoSolution.java:88-99 | one more element adds no close duplicate when its last occurrence is far |
| PreorderTraversal.PreorderTraversalItr | binary-tree/01-binary-tree-preorder-traversal/PreorderTraversalSolution.java:12-34 | the stack traversal returns `Preorder(root)`, the recursive traversal's result |
| PreorderTraversal.PreorderTraversalRec | binary-tree/01-binary-tree-preorder-traversal/PreorderTraversalSolution.java:37-50 | returns `Preorder(root)` |
| PreorderTraversal.Traverse | binary-tree/01-binary-tree-preorder-traversal/PreorderTraversalSolution.java:6-9 | `Preorder(root)`, one value per node |
| HelloWorld.SayHello | hello-world/HelloWorldSolution.java:2-7 | `Hello, World!` for null or blank names; otherwise the untrimmed name between `Hello, ` and `!` |
| HelloWorld.GreetedName | hello-world/HelloWorldSolution.java:2-7 | the text between greeting and `!` is the non-blank name, else `World` |
| HelloWorld.SayHelloInjective | hello-world/HelloWorldSolution.java:2-7 | distinct non-blank names get distinct greetings |

## Left out

- Reading files, printing and the drivers are not modelled. This covers `loadTestCases`, `saveToFile`, every `print*` method, `TestRunner.printPerformanceSummary` with its call to the complexity analysis, and each `main`. The text written to files and to the console is modelled where the source builds it (`generateResultsJson`, `formatComparison`, `formatTestSummary`).
- Reflection is modelled by its results. A method is its name and parameter classes, in the order `getDeclaredMethods` gives them. Invoking it is a function parameter, so a solution returns the same outcome on every call.
- Clocks and `Runtime` memory readings are parameters. So are the floating-point means, deviations and ratios of the two complexity analyses. Their thresholds, clamping and order of preference are modelled.
- `Thread.sleep` and its `InterruptedException` are not modelled, and neither is garbage collection.
- PerformanceAnalyzer.Characteristics: the confidences 0.9, 0.7, 0.6 and 0.8 and the small-input reduction `* 0.8` are exact reals, not doubles, so where Java computes `0.9 * 0.8` as `0.7200000000000001` the model has 0.72, and the bounds of `ConfidenceZeroIffGated` and `SmallInputNoteIff` are facts of real arithmetic. No modelled output writes the confidence.
- Doubles are carried as their decimal text. `Double.toString`, hexadecimal floating literals and the `PerformanceResult` getters in floating point are not modelled. `TimeMs` divides exactly.
- TestRunner.TestResults.AddResult: the `passed` and `total` counters are unbounded, not 32-bit `int`. The same holds for the manager's counters and for the long subtraction of clock readings, because no run of the harness comes near the limits.
- Strings are sequences of Unicode scalar values. UTF-16 surrogates, `\u` escapes naming a surrogate, non-ASCII digits and non-ASCII case mapping are not modelled.
- `Object.toString`'s identity hash is not modelled, so a plain object or nested array is written as its class name only.
- `HashMap` iteration order is not modelled. Maps keep first-insertion order, which matters only where the source iterates a map (`objectToJsonString` of nested objects).
- OutputFormatter.ReplaceWordAt: `\b` is modelled by its ASCII word class alone. The rule that a non-spacing mark (Unicode category Mn) is also a word character when the nearest character before it that is not such a mark is a letter or digit is not modelled, because the model has no Unicode category tables. So for `True` followed by a combining accent, Java sees no boundary and keeps the text, while the model's word pass writes `true` and the accent. The same holds for `ReplaceWordGone`, `ReplaceWordAbsent` and `NormalizeFixed`.
- OutputFormatter.NormalizeCanonical: judges whole words by the same ASCII-only boundary, so a `True` or `False` directly followed by a non-spacing mark counts as a whole word in the model but not in Java.
- The shared `JsonProcessor.parseJsonObject` is not modelled: no code path calls it.
- The detailed `NullPointerException` messages name the variable as the source text does. A class compiled without local variable tables (`javac` without `-g`) names it `<local1>` or the like instead.
- TestData.InputTypes: the message of the `NullPointerException` for a `null` type hint is left as `null`. It arises inside the stream's `Object::toString`, and it leaves the loading of the test file without being recorded.
- ResultsManager.EscapeJsonRoundTrip: stated for text without a backslash, because `escapeJson` does not escape backslashes (`BackslashNotEscaped`).
- DemoSolution.SearchMatrix: a `null` row inside the matrix is not modelled. A row shorter than the first is modelled, and throws.
- TreeCodec.FromArray: a `null` array, which Java maps to `null`, is not modelled; every caller passes the non-null result of `parseArray`.
- DemoSolution.SearchInsert: a `null` array argument is not modelled.
- DemoSolution.ContainsNearbyDuplicate: a `null` array argument is not modelled.
- PerformanceAnalyzer.SortBySizeSorted: `List.sort` is stable and so is the insertion sort modelling it, but stability is not stated; sortedness and the permutation are.
- ComplexityPatterns.Score: the quotient is a real, not a rounded double. Its upper bound 1 rests on `Plausible`, which the quadratic hypothesis can break: `lib/PerformanceAnalyzer.java:342` computes `inputSize * inputSize` as a 32-bit `int`, which wraps to a negative value from a size of 46341 on and to 0 at multiples of 65536, so a ratio can be negative or infinite.
- ComplexityPatterns.ConfidenceIsBestScore: the confidence lies within [0, 1] only under `Plausible`, which the 32-bit overflow of `inputSize * inputSize` at `lib/PerformanceAnalyzer.java:342` can break for sizes of 46341 and more. The model takes the five means and deviations as given, so it does not compute the overflowing ratio.
