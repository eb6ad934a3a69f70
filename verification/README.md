# Verification model of the DQX Studio backend and MCP server cores

This project models the parts of DQX Studio and its MCP server whose correctness is not
visible from one function at a time, and proves what they are meant to guarantee:

* **The low-code rule compiler** (`Text`, `SqlText`, `SqlReader`, `Connectives`, `LowcodeRows`,
  `LowcodeMeaning`, `LowcodeLegible`, `LowcodeStack`, `LowcodeText`, `CommaSplit`, `SlotTokens`,
  `TokenPattern`, `PredicateSlots`, `LowcodeBody`, `LowcodeQuery`, `BraceRefs`, `BraceIdempotence`,
  `BraceLaws`). Rows are compiled to a sequence of lexemes whose `Render` is the emitted text, character
  by character. `SqlReader` is an independent reader of boolean SQL text (OR under AND under NOT under
  comparisons, BETWEEN owning the next AND) with three-valued meanings; `Lex` turns text back into
  lexemes. The main result is that the flat, unbracketed text means the OR of the maximal AND-runs of
  the rows' own conditions, and exactly when the text is well formed at all. `LowcodeText` and
  `LowcodeQuery` write the emitted text down a second time, as plain strings, for rows, stacks, joins
  and whole bodies. Three text scanners over the compiler's output are modelled as the patterns and
  loops they are: the top-level comma splitter, the slot extractor and the repair pass that braces bare
  names; each has laws that do not speak of its own states.
* **The native-check compiler** (`NativePredicates`, `NativeText`): pairs of checks that must be
  three-valued negations of each other, the tolerance test over the reals, literals that read back, and
  the text of every check.
* **The cache** (`Cache`, `SingleFlight`, `FlightHistory`): the lazily evicting map against a map that
  never forgets, the single-flight wrapper as a protocol whose coroutines interleave step by step, and
  the two put together over whole runs.
* **The deduplicating telemetry log** (`Telemetry`): what bounded FIFO eviction does to
  "each signal once", over whole runs of claims.
* **Rule identity** (`Fingerprint`, `ProfilingRules`): the canonical form that is hashed, and the
  split of a profiler check into template, mapping and frozen values.
* **Operations** (`ViewSweep`, `RunPoll`, `WheelPublish`, `MarketplaceRelease`, `CatalogName`):
  the view sweeper, the bounded poll loop, the upload-then-marker publication, the release with
  compensation, and the parser that undoes identifier quoting.

Code that works step by step is a method or a class here, proved against a function; the laws are
lemmas about that function. `None` of an `Option` result stands for the exception of the original
unless a comment says otherwise.

Some properties turned out to hold only under a condition; the condition is proved exact, or an
input shows what goes wrong without it:

* The predicate text is read as it was meant exactly when row 0 compiles to something, no row compares
  with a right-hand aggregate that has no SQL form, no row tests an empty list, and every column and
  operand ends where it should (`LowcodeStack.StackWellFormedIff`). An `in` or `not in` operand that
  is empty or is no list is emitted as `IN ()` or `NOT IN ()` (`LowcodeStack.EmptyListHasNoReading`).
* A low-code literal doubles quotes and leaves backslashes alone, while the repository's own scanner of
  emitted SQL (`src/databricks/labs/dqx/utils.py`) lets a backslash escape the next character. The
  literal ends at its own closing quote exactly when no backslash of the value takes a quote
  (`SqlText.LiteralReadsBackIff`), and stands for the value itself exactly when it holds no backslash
  (`SqlText.LiteralStandsForIff`); a text ending in one backslash leaves the predicate without a
  reading (`LowcodeStack.BackslashHasNoReading`). The native checks double backslashes, so their
  literals always end and stand for the value (`NativePredicates.StringRoundTrip`).
* The repair pass is idempotent on all texts exactly when no declared name is AS, FROM, JOIN, TABLE
  or INTO in any letter case (`BraceIdempotence.IdempotentIff`).
* A token of blanks alone names nothing exactly unless the text after it could close once more
  (`TokenPattern.BlankTokenIff`): `{{ }} {{a}}` gives one name that holds the second token's braces.
* The ON text of a join has a reading exactly when some key names both columns; a join whose keys are
  all incomplete is emitted with nothing after ON (`LowcodeBody.OnReads`).
* A column argument survives the profiler split exactly when it is one name, or a list of
  comma-free names for a many-column slot; a parameter exactly when its value is in the allowed
  union (`ProfilingRules.SplitCanBeUndone`).
* `clear` drops the lock objects. It keeps single flight exactly when no call waits, rechecks or
  fetches at that moment; a call that only writes does no harm (`SingleFlight.ClearIsHarmlessIff`;
  a concrete run is `SingleFlight.ClearAdmitsTwo`). Without reliable mode nothing in the protocol
  itself orders the scheduled write before the next fetch (`SingleFlight.UnlandedTaskAdmitsAnother`).
* A startup keeps the publication marker honest exactly when it does not tear the very wheel the marker
  names without having read the marker (`WheelPublish.PublishHonestIff`,
  `WheelPublish.UnreadableTearBreaksMarker`); over every sequence of other startups the marker is
  honest exactly when no two wheels share a filename (`WheelPublish.MarkerHonestIff`).
* The slot pattern of the native checks also accepts texts that are more than one placeholder. A
  column is one placeholder exactly when no `}}` stands inside its name
  (`NativePredicates.OnePlaceholderIff`); `{{a}} OR {{b}}` passes, and then the pairs are no
  negations (`NativePredicates.TwoColumnsBreakPairs`).
* Repeated slot names let declaration order show in the canonical form
  (`Fingerprint.RepeatedNamesShowOrder`).

Where the code and its own comments differ, the code is modelled. The fingerprint comment promises
order independence; for repeated names the stable sort breaks it, as the lemma above shows. The
sweeper's docstring says it returns the number of views dropped; the count is of attempts, and an
attempt whose name is refused or whose statement fails still counts.

## Model

| member | source | states |
|---|---|---|
| `SqlText.LiteralReadsBackIff` | app/src/databricks_labs_dqx_app/backend/lowcode_compile.py:233-241 | for a reader that undoes doubled quotes and keeps a backslash with the character after it, the literal of a value ends at its own closing quote, and gives the value back, exactly when no backslash of the value takes a quote |
| `SqlText.LiteralStandsForIff` | app/src/databricks_labs_dqx_app/backend/lowcode_compile.py:233-241 | the literal closes and stands for the value itself exactly when the value holds no backslash, whatever character an escape stands for |
| `SqlText.LexRenderIff` | app/src/databricks_labs_dqx_app/backend/lowcode_compile.py:359-499 | printing well spaced lexemes and lexing the text is the identity exactly when every literal, interval and placeholder among them ends where it should; so what is proved of lexemes holds of the text, and of no other |
| `Connectives.PartsRead` | app/src/databricks_labs_dqx_app/backend/lowcode_compile.py:513-524 | joined fragments read, with SQL precedence, as the OR of the maximal AND-runs of their own readings |
| `LowcodeMeaning.BetweenReads` | app/src/databricks_labs_dqx_app/backend/lowcode_compile.py:496-498 | BETWEEN keeps its own AND when the text is read |
| `LowcodeMeaning.ListReads` | app/src/databricks_labs_dqx_app/backend/lowcode_compile.py:271-272 | a rendered value list is read item by item as an OR of equalities; an item is missing exactly when the list is empty |
| `LowcodeMeaning.LuhnRow` | app/src/databricks_labs_dqx_app/backend/lowcode_compile.py:469-471 | the unbracketed AND of the checksum row is read as the conjunction of its two tests |
| `LowcodeMeaning.EveryOperatorReads` | app/src/databricks_labs_dqx_app/backend/lowcode_compile.py:359-472 | every operator's text is read as that operator's condition on its operand, in three-valued logic; a list test without items has no reading |
| `LowcodeStack.AggPiece` | app/src/databricks_labs_dqx_app/backend/lowcode_compile.py:152-172 | every aggregate expression stands as one operand in any context |
| `LowcodeLegible.RowIsLegibleIff` | app/src/databricks_labs_dqx_app/backend/lowcode_compile.py:359-499 | a row's lexemes all end where they should exactly when its columns and operands do, operator by operator: no taken quote, no lone quote in an interval, no inner `}}` in a column |
| `LowcodeStack.RowReads` | app/src/databricks_labs_dqx_app/backend/lowcode_compile.py:475-499 | a compiled row's text is lexed as it was meant exactly when its columns and operands end where they should, and is then read as the row's condition; it has no reading when its right-hand aggregate is unusable or it tests an empty list |
| `LowcodeStack.RangeHoldsInOrder` | app/src/databricks_labs_dqx_app/backend/lowcode_compile.py:381-427 | every range row, of a column, a column's length or an aggregate, holds between its first item and its second, in this order; with fewer than two items, or an operand that is no list, both bounds are NULL |
| `LowcodeText.RowPrints` | app/src/databricks_labs_dqx_app/backend/lowcode_compile.py:152-499 | every row of every operator and aggregate is printed as the text written out for it, and raises exactly where that text does |
| `LowcodeRows.CompileAstToSql` | app/src/databricks_labs_dqx_app/backend/lowcode_compile.py:502-524 | the loop over the rows computes the stack text of the specification, errors included |
| `LowcodeText.StackPrints` | app/src/databricks_labs_dqx_app/backend/lowcode_compile.py:502-524 | every stack is printed as its rows' texts, the later ones behind their combinators, with single spaces; rows without a form leave nothing |
| `LowcodeText.BetweenStackPrints` | app/src/databricks_labs_dqx_app/backend/lowcode_compile.py:496-498 | for all number texts and whatever items follow them, BETWEEN shows the first bound before the second |
| `LowcodeStack.StackReads` | app/src/databricks_labs_dqx_app/backend/lowcode_compile.py:502-524 | every stack's text is lexed as it was meant exactly when its columns and operands end where they should; it then means the OR of the maximal AND-runs of the rows' own conditions when row 0 compiles, and has no reading otherwise; one row without a reading leaves the whole without one |
| `LowcodeStack.StackWellFormedIff` | app/src/databricks_labs_dqx_app/backend/lowcode_compile.py:502-524 | the text is lexed as it was meant and has a reading exactly when row 0 compiles to something, no row compares with an unusable aggregate, no row tests an empty list, and every column and operand ends where it should |
| `LowcodeStack.BackslashHasNoReading` | app/src/databricks_labs_dqx_app/backend/lowcode_compile.py:240-241 | the failing input: any quote-free text whose closing quote is taken by a backslash, such as `C:\`, gives `startswith({{a}}, 'C:\')`, which never closes and has no reading |
| `LowcodeStack.EmptyListHasNoReading` | app/src/databricks_labs_dqx_app/backend/lowcode_compile.py:383-386 | the failing input: an empty list, or an operand that is no list, gives `{{a}} IN ()` or `{{a}} NOT IN ()`, which has no reading |
| `LowcodeStack.FailConditionNegates` | app/src/databricks_labs_dqx_app/backend/lowcode_compile.py:591 | for every row stack whose columns and operands end where they should the folded `NOT (...)` is the three-valued negation of the predicate, TRUE exactly when it is FALSE; for every stack it is read as it was meant exactly when the stack is well formed |
| `CommaSplit.SplitTopLevelCommas` | app/src/databricks_labs_dqx_app/backend/lowcode_compile.py:275-305 | the index loop over depth, quote flag and start computes the pieces between top-level commas, stripped, empties dropped |
| `CommaSplit.SplitsAtTopLevel` | app/src/databricks_labs_dqx_app/backend/lowcode_compile.py:289-303 | the commas cut at are exactly those at top level, where top level is counted over prefixes: an even number of quotes before, and no bracket open among the brackets outside quotes |
| `CommaSplit.TidyEach` | app/src/databricks_labs_dqx_app/backend/lowcode_compile.py:303-305 | every raw piece is stripped, and dropped exactly when nothing is left, in order |
| `Text.BlanksAre` | app/src/databricks_labs_dqx_app/backend/lowcode_compile.py:305-305 | the white space that stripping removes, up to code point 127 |
| `CommaSplit.CallIsOnePiece` | app/src/databricks_labs_dqx_app/backend/lowcode_compile.py:296-300 | balanced brackets, a function's or none, keep their commas: the call is one piece whatever follows its comma |
| `CommaSplit.LiteralIsOnePiece` | app/src/databricks_labs_dqx_app/backend/lowcode_compile.py:285-295 | every written literal is one piece, whatever commas, brackets and quotes it holds |
| `CommaSplit.PiecesJoinBack` | app/src/databricks_labs_dqx_app/backend/lowcode_compile.py:275-305 | the raw pieces joined by commas are the text again |
| `CommaSplit.PiecesAreUnique` | app/src/databricks_labs_dqx_app/backend/lowcode_compile.py:275-305 | no other cut of a text into pieces without top-level commas exists |
| `CommaSplit.CleanRoundTrip` | app/src/databricks_labs_dqx_app/backend/lowcode_compile.py:275-305 | any list of clean pieces survives being joined with ", " and split |
| `CommaSplit.SplitJoinSplit` | app/src/databricks_labs_dqx_app/backend/lowcode_compile.py:275-305 | splitting, joining with ", " and splitting again gives the same pieces for every text, unbalanced brackets and open quotes included |
| `SlotTokens.ExtractSlotTokens` | app/src/databricks_labs_dqx_app/backend/lowcode_compile.py:630-653 | the loop over fragments and matches collects the names of the specification |
| `SlotTokens.CollectIsDistinct` | app/src/databricks_labs_dqx_app/backend/lowcode_compile.py:639-653 | the result holds each name once, all of them, without the reserved ones |
| `SlotTokens.CollectGrows` | app/src/databricks_labs_dqx_app/backend/lowcode_compile.py:639-653 | names come in order of appearance: more names only add at the end |
| `SlotTokens.NamesInOrder` | app/src/databricks_labs_dqx_app/backend/lowcode_compile.py:641-644 | the names of several fragments are those of each in turn; a missing fragment has none |
| `SlotTokens.BlanksAreStripped` | app/src/databricks_labs_dqx_app/backend/lowcode_compile.py:645-645 | white space inside the braces belongs to no name |
| `TokenPattern.TokenIsPreferred` | app/src/databricks_labs_dqx_app/backend/lowcode_compile.py:178-178 | of all ways to read a token at the start of a text the scanner takes the one with the most white space before the name, and then the shortest name; it takes none exactly when there is none |
| `TokenPattern.BlankTokenIff` | app/src/databricks_labs_dqx_app/backend/lowcode_compile.py:178-178 | a token of blanks names nothing, exactly unless the text after it could close once more; then everything up to there is one name |
| `TokenPattern.BlankTokenTakesSlot` | app/src/databricks_labs_dqx_app/backend/lowcode_compile.py:178-178 | the failing input: `{{ }} {{a}}` |
| `SlotTokens.ScanFindsSlots` | app/src/databricks_labs_dqx_app/backend/lowcode_compile.py:178-178 | the token pattern finds exactly the placeholders that were emitted, in order |
| `SlotTokens.DeleteRendered` | app/src/databricks_labs_dqx_app/backend/lowcode_compile.py:217-230 | deleting the qualifier text everywhere removes exactly the qualifiers |
| `PredicateSlots.QualifierComesOff` | app/src/databricks_labs_dqx_app/backend/lowcode_compile.py:214-230 | deleting every `{{input_view}}.` from the qualified predicate gives the unqualified one, and both raise alike |
| `PredicateSlots.DeclaredSlots` | app/src/databricks_labs_dqx_app/backend/lowcode_compile.py:630-653 | the slots of the compiled predicate, qualified or not, are exactly the own-table columns of the rows that compile, once each, in order of first appearance |
| `LowcodeBody.CompileJoinsToSql` | app/src/databricks_labs_dqx_app/backend/lowcode_compile.py:527-564 | the loop over the joins computes the FROM fragment of the specification, skipped joins and errors included |
| `LowcodeBody.OnReads` | app/src/databricks_labs_dqx_app/backend/lowcode_compile.py:550-564 | the ON text is lexed as it was meant exactly when the complete keys' own columns end where they should, and is then read as the equality of every complete key's joined and own column; with no complete key it has no reading |
| `LowcodeBody.HasJoinsIff` | app/src/databricks_labs_dqx_app/backend/lowcode_compile.py:579-586 | the predicate is qualified exactly when some join is not skipped |
| `LowcodeBody.JoinKeyRefs` | app/src/databricks_labs_dqx_app/backend/lowcode_compile.py:308-331 | the nested loops collect the bare keys of the specification, or raise with it |
| `LowcodeBody.DistinctFacts` | app/src/databricks_labs_dqx_app/backend/lowcode_compile.py:317-331 | merge keys are listed once each, none missing, first appearance first |
| `LowcodeBody.GroupByResplits` | app/src/databricks_labs_dqx_app/backend/lowcode_compile.py:594-606 | for every group-by text the query ends in GROUP BY and the joined merge columns, and that text splits into the merge columns again |
| `LowcodeBody.SelectNames` | app/src/databricks_labs_dqx_app/backend/lowcode_compile.py:334-346 | a SELECT list of single-placeholder keys, followed by anything, splits into items whose output names are the keys in order |
| `LowcodeBody.BodyOutputs` | app/src/databricks_labs_dqx_app/backend/lowcode_compile.py:594-614 | the first output names of the whole query are the merge columns, with and without joins |
| `LowcodeQuery.JoinsPrint` | app/src/databricks_labs_dqx_app/backend/lowcode_compile.py:527-564 | every list of joins is printed as the kept joins' verbs, quoted targets and key equalities, own side under the input view, and raises exactly where that text does |
| `LowcodeQuery.JoinKeysAre` | app/src/databricks_labs_dqx_app/backend/lowcode_compile.py:308-331 | the join keys are the bare columns that keys of joins with a target, cross joins aside, name: each once, none missing |
| `LowcodeQuery.JoinKeysRaiseIff` | app/src/databricks_labs_dqx_app/backend/lowcode_compile.py:317-331 | collecting them raises exactly when a named column is a bad path |
| `LowcodeQuery.JoinKeysGrow` | app/src/databricks_labs_dqx_app/backend/lowcode_compile.py:317-331 | they stand in the order of the joins, and of the keys within a join |
| `LowcodeQuery.PlaceholderProjects` | app/src/databricks_labs_dqx_app/backend/lowcode_compile.py:343-345 | a single plain placeholder is taken from the input view and put out under its own name |
| `LowcodeQuery.OthersProject` | app/src/databricks_labs_dqx_app/backend/lowcode_compile.py:343-346 | every other key is put out as it is |
| `LowcodeQuery.BodyPrints` | app/src/databricks_labs_dqx_app/backend/lowcode_compile.py:567-616 | every whole body is the predicate, or SELECT with the merge columns and one negated condition, FROM the view and the joins, GROUP BY the groups; it raises alike |
| `LowcodeQuery.QueryNegates` | app/src/databricks_labs_dqx_app/backend/lowcode_compile.py:591-616 | the condition of every query is read as the negation of the predicate text when columns and operands end where they should, and for every stack it is read as it was meant exactly when the stack is well formed |
| `LowcodeBody.BodyShape` | app/src/databricks_labs_dqx_app/backend/lowcode_compile.py:576-616 | a body is a predicate exactly when no join is usable and there is no group-by, a query otherwise; merge columns are never an empty list |
| `BraceRefs.BraceBareSlotRefs` | app/src/databricks_labs_dqx_app/backend/lowcode_compile.py:656-710 | the loop over protected spans, with the word replacement inside each segment, computes the repaired text of the specification |
| `BraceRefs.BraceSegment` | app/src/databricks_labs_dqx_app/backend/lowcode_compile.py:687-701 | the substitution decides each word from the text before and after it, as the left-to-right context does |
| `BraceRefs.RepairedExactly` | app/src/databricks_labs_dqx_app/backend/lowcode_compile.py:681-710 | the repaired text is the input with braces put around words: taking them out gives the input, its protected spans are all there unchanged and in order, and outside them exactly the declared words in unblocked positions are braced |
| `BraceLaws.LiteralIsOneSpan` | app/src/databricks_labs_dqx_app/backend/lowcode_compile.py:184-184 | a literal written by the compiler is exactly one protected span |
| `BraceLaws.WrittenIsKept` | app/src/databricks_labs_dqx_app/backend/lowcode_compile.py:184-184 | text in single or double quotes with its quotes doubled, text in backticks without one inside, and a placeholder that closes once are each one span, and the pass keeps them and repairs what follows alone |
| `BraceLaws.OtherTextIsNoSpan` | app/src/databricks_labs_dqx_app/backend/lowcode_compile.py:184-184 | text that begins with any other character, or whose opening quote or braces never close, has no span |
| `BraceLaws.AfterWordDecides` | app/src/databricks_labs_dqx_app/backend/lowcode_compile.py:187-188 | a declared name after another word is braced exactly when that word is none of the five binding words |
| `BraceLaws.UpperIs` | app/src/databricks_labs_dqx_app/backend/lowcode_compile.py:695-696 | binding words are recognized in every letter case |
| `BraceLaws.AfterMarkDecides` | app/src/databricks_labs_dqx_app/backend/lowcode_compile.py:690-699 | a declared name after a mark is braced exactly when the mark is no dot |
| `BraceLaws.BeforeMarkDecides` | app/src/databricks_labs_dqx_app/backend/lowcode_compile.py:690-699 | a declared name in front of a mark is braced exactly when the mark is neither a dot nor an opening bracket |
| `BraceLaws.UndeclaredStays` | app/src/databricks_labs_dqx_app/backend/lowcode_compile.py:690-699 | a word alone is braced exactly when it is declared |
| `BraceLaws.TargetsAre` | app/src/databricks_labs_dqx_app/backend/lowcode_compile.py:677-680 | the names looked for are exactly the stripped ones that are identifiers |
| `BraceIdempotence.SpanStable` | app/src/databricks_labs_dqx_app/backend/lowcode_compile.py:184-184 | a protected span is still that span in front of repaired text |
| `BraceIdempotence.SecondPass` | app/src/databricks_labs_dqx_app/backend/lowcode_compile.py:681-710 | from any point of the scan a second pass changes nothing when no name is a binding keyword |
| `BraceIdempotence.IdempotentIff` | app/src/databricks_labs_dqx_app/backend/lowcode_compile.py:681-710 | the pass is idempotent on all texts exactly when no declared name is a binding keyword in any case |
| `NativePredicates.StringRoundTrip` | app/src/databricks_labs_dqx_app/backend/native_test_predicate.py:116-118 | for every string the literal ends at its closing quote and stands for the string in every dialect that reads a doubled backslash as one |
| `NativeText.ColumnAcceptedIff` | app/src/databricks_labs_dqx_app/backend/native_test_predicate.py:107-113 | an argument is a column exactly when it is a string that, stripped, is one line of text and white space between double braces, and is emitted as that stripped text |
| `NativePredicates.OnePlaceholderIff` | app/src/databricks_labs_dqx_app/backend/native_test_predicate.py:22-22 | a column argument the slot pattern accepts is lexed as one placeholder exactly when its first `}}` is the closing one |
| `NativePredicates.TwoColumnsBreakPairs` | app/src/databricks_labs_dqx_app/backend/native_test_predicate.py:107-113 | the failing input: `{{a}} OR {{b}}` passes as one column, and then both null checks are TRUE on one row |
| `NativePredicates.NullPair` | app/src/databricks_labs_dqx_app/backend/native_test_predicate.py:151-158 | for every column the two null checks are lexed as they were meant exactly when the column is one placeholder, and are then never NULL and negate each other |
| `NativePredicates.EmptyPair` | app/src/databricks_labs_dqx_app/backend/native_test_predicate.py:161-170 | is_not_empty is the three-valued negation of is_empty on every row, and both are lexed as meant, exactly for columns that are one placeholder |
| `NativePredicates.NullOrEmptyPair` | app/src/databricks_labs_dqx_app/backend/native_test_predicate.py:173-184 | is_null_or_empty and is_not_null_and_not_empty are lexed as meant exactly for columns that are one placeholder, and are then never NULL and negate each other |
| `NativeText.NullChecksPrint` | app/src/databricks_labs_dqx_app/backend/native_test_predicate.py:151-184 | the six null and empty checks are printed as the texts written out for them |
| `NativePredicates.RangePair` | app/src/databricks_labs_dqx_app/backend/native_test_predicate.py:192-217 | with the same limits, one- or two-sided, both range checks compile or neither does; they are lexed as meant exactly for columns that are one placeholder, and are then three-valued negations |
| `NativeText.RangesPrint` | app/src/databricks_labs_dqx_app/backend/native_test_predicate.py:192-217 | both range checks are printed as the comparisons of the given limits, joined by AND or by OR, and compile exactly when a limit is given and both are scalars |
| `NativePredicates.ListChecks` | app/src/databricks_labs_dqx_app/backend/native_test_predicate.py:266-289 | the list check is an OR of equalities, its opposite the negation, the third its conjunction with not NULL, lexed as meant exactly for columns that are one placeholder; they compile together |
| `NativeText.ListChecksPrint` | app/src/databricks_labs_dqx_app/backend/native_test_predicate.py:129-289 | the three list checks are printed as the texts written out for them, items lowered when case does not matter, and compile exactly for a non-empty list of scalars |
| `NativePredicates.ToleranceReads` | app/src/databricks_labs_dqx_app/backend/native_test_predicate.py:236-246 | for every row the tolerance text is read as the comparison or the OR of comparisons it shows, for any combination of absent and positive tolerances |
| `NativePredicates.CloseIsSymmetric` | app/src/databricks_labs_dqx_app/backend/native_test_predicate.py:236-246 | closeness does not tell the column from the value |
| `NativePredicates.EqualPair` | app/src/databricks_labs_dqx_app/backend/native_test_predicate.py:249-263 | for values of any type both checks are lexed as meant exactly for columns that are one placeholder, and then is_not_equal_to is the three-valued negation of is_equal_to on every row; where the arithmetic has its meaning is_equal_to is closeness: equal, or within a positive absolute or relative bound, NULL for NULL |
| `NativeText.EqualChecksPrint` | app/src/databricks_labs_dqx_app/backend/native_test_predicate.py:232-263 | both equality checks are printed as the texts written out for them, by which tolerances are positive, and compile exactly for a scalar that is not null |
| `Cache.LazyEvictionIsInvisible` | app/src/databricks_labs_dqx_app/backend/cache.py:53-73 | over every history on a clock that never goes back, a read answers as a map that keeps the latest set for ever and checks its lifetime |
| `Cache.ClockMustNotGoBack` | app/src/databricks_labs_dqx_app/backend/cache.py:53-62 | on a clock that went back an evicted entry would still have been alive |
| `Cache.CacheFactory.Read` | app/src/databricks_labs_dqx_app/backend/cache.py:53-62 | get returns the latest value set exactly when it was not deleted or cleared since and its lifetime is not past, and evicts in place |
| `Cache.CacheFactory.Write` | app/src/databricks_labs_dqx_app/backend/cache.py:64-66 | set replaces the entry, with the default lifetime when none is given |
| `Cache.CacheFactory.Drop` | app/src/databricks_labs_dqx_app/backend/cache.py:68-69 | delete removes the key and nothing else |
| `Cache.CacheFactory.Empty` | app/src/databricks_labs_dqx_app/backend/cache.py:71-73 | clear removes every entry |
| `SingleFlight.StepKeepsInv` | app/src/databricks_labs_dqx_app/backend/cache.py:75-78 | every step but clear keeps one lock object per key and one holder per lock |
| `SingleFlight.OneFetchPerKey` | app/src/databricks_labs_dqx_app/backend/cache.py:136-170 | in every interleaving without clear at most one call per key is inside the wrapped function |
| `SingleFlight.LandedWriteHoldsOff` | app/src/databricks_labs_dqx_app/backend/cache.py:82-103 | once a fetched value has landed in the store, no call starts to fetch that key until it expires, unless it is deleted, replaced or cleared |
| `SingleFlight.StoredValueHasSource` | app/src/databricks_labs_dqx_app/backend/cache.py:82-103 | over every run the value stored under a key was fetched by a call for that very key, or set for it, at an earlier step |
| `SingleFlight.AnswerHasSource` | app/src/databricks_labs_dqx_app/backend/cache.py:146-170 | over every run the value a call answers was produced for its own key at an earlier step |
| `SingleFlight.FetchedIsAnswered` | app/src/databricks_labs_dqx_app/backend/cache.py:161-170 | a call that fetched answers with its own fetched value or raises, whatever runs in between |
| `SingleFlight.HitAnswersEntry` | app/src/databricks_labs_dqx_app/backend/cache.py:146-156 | a hit answers with the entry found at that moment; a miss goes on with the same key |
| `SingleFlight.CallKeepsKey` | app/src/databricks_labs_dqx_app/backend/cache.py:136-170 | whatever runs, a call stays with the key it was made for |
| `SingleFlight.ThirdFailureRaises` | app/src/databricks_labs_dqx_app/backend/cache.py:87-103 | an awaited write is tried three times, then the call raises and gives its lock back |
| `SingleFlight.EntriesAreFresh` | app/src/databricks_labs_dqx_app/backend/cache.py:64-66 | over every run no entry outlives its key's lifetime, unless it was set from outside |
| `FlightHistory.StoreIsCache` | app/src/databricks_labs_dqx_app/backend/cache.py:53-170 | over every run the wrapper's store is the cache object after the run's own reads and writes, each at its moment and with its key's lifetime |
| `FlightHistory.HitIsRemembered` | app/src/databricks_labs_dqx_app/backend/cache.py:146-156 | over every run a read is a hit exactly when the plain map that never drops anything remembers a value at that moment, and answers that value |
| `FlightHistory.ClockIsTicks` | app/src/databricks_labs_dqx_app/backend/cache.py:53-66 | the clock of a run is its start and the sum of its ticks |
| `FlightHistory.TasksAreConserved` | app/src/databricks_labs_dqx_app/backend/cache.py:82-85 | over every run each scheduled write is pending, or has landed or failed exactly once |
| `FlightHistory.CancelIff` | app/src/databricks_labs_dqx_app/backend/cache.py:87-103 | a call can be cancelled exactly while it waits for its lock or its write; it raises, gives back a lock it held and leaves everything else as it was |
| `SingleFlight.ReliableSingleFlight` | app/src/databricks_labs_dqx_app/backend/cache.py:87-103 | in reliable mode no other call enters the wrapped function until the first one raised or its written value expired |
| `SingleFlight.EnterReachesFetch` | app/src/databricks_labs_dqx_app/backend/cache.py:146-159 | a call that finds no entry and a free lock reaches the wrapped function, moving nobody else |
| `SingleFlight.ClearIsHarmlessIff` | app/src/databricks_labs_dqx_app/backend/cache.py:71-73 | a clear after any run without one leaves every later interleaving with one fetch per key exactly when no call waits for its lock, rechecks under it or fetches at that moment |
| `SingleFlight.UnlandedTaskAdmitsAnother` | app/src/databricks_labs_dqx_app/backend/cache.py:82-85 | while a scheduled write has not run another call can fetch the key again |
| `Telemetry.LogIsBounded` | mcp-server/server/telemetry.py:41-43 | after every claim of every run the log holds at most the maximum, each signal once |
| `Telemetry.RegrantIsFar` | mcp-server/server/telemetry.py:97-103 | between two True answers for one signal at least the maximum number of distinct other signals were granted |
| `Telemetry.EachGrantedOnce` | mcp-server/server/telemetry.py:90-103 | with at most the maximum number of distinct signals each is granted exactly once, on its first claim |
| `Telemetry.SentTelemetry.ClaimSignal` | mcp-server/server/telemetry.py:90-103 | a claim is granted exactly when the signal is not in the log; it is appended, and the oldest entry leaves when there are too many |
| `Telemetry.SentTelemetry.Reset` | mcp-server/server/telemetry.py:84-87 | reset empties the log |
| `Telemetry.SentTelemetry.ClaimAll` | mcp-server/server/telemetry.py:46-48 | calls serialized by the lock are answered as the run of claims in that order |
| `Fingerprint.SortIsStable` | app/src/databricks_labs_dqx_app/backend/registry_fingerprint.py:47-54 | sorting by name orders the names and keeps each name's entries in order |
| `Fingerprint.BeforeDecides` | app/src/databricks_labs_dqx_app/backend/registry_fingerprint.py:47-54 | names are ordered by the first character that differs, a proper prefix first |
| `Fingerprint.SortsAlikeIff` | app/src/databricks_labs_dqx_app/backend/registry_fingerprint.py:47-54 | two lists sort to the same list exactly when each name has the same entries in the same order |
| `Fingerprint.DistinctSortsAlikeIff` | app/src/databricks_labs_dqx_app/backend/registry_fingerprint.py:47-54 | with distinct names they sort alike exactly when they are equal as sets |
| `Fingerprint.SameFormIff` | app/src/databricks_labs_dqx_app/backend/registry_fingerprint.py:43-76 | with distinct names canonical data agree exactly when mode, polarity, body and filter agree, the slots in name, family and cardinality, and the parameters in name, type and normalized value; order and positions never matter |
| `Fingerprint.RepeatedNamesShowOrder` | app/src/databricks_labs_dqx_app/backend/registry_fingerprint.py:47-50 | repeated names let declaration order show |
| `ProfilingRules.DeriveSlotsAndParameters` | app/src/databricks_labs_dqx_app/backend/registry_seed_map.py:83-129 | the loop splits the parameters into the slots and parameters of the specification |
| `ProfilingRules.SplitFacts` | app/src/databricks_labs_dqx_app/backend/registry_seed_map.py:99-129 | every column parameter becomes a slot at the next dense position, with its family or the function's and its cardinality, every other one a parameter of its kind's type without a value, both in order |
| `ProfilingRules.BuildProfilingRule` | app/src/databricks_labs_dqx_app/backend/profiling_rule_builder.py:147-201 | the loop with its early exits builds the candidate of the specification or none |
| `ProfilingRules.BuildsIff` | app/src/databricks_labs_dqx_app/backend/profiling_rule_builder.py:62-185 | a check becomes a candidate exactly when it has the shape of one, names a registered function, carries no SQL text that fails the safety scan, and gives each of at least one column parameter a usable argument |
| `ProfilingRules.CandidateIs` | app/src/databricks_labs_dqx_app/backend/profiling_rule_builder.py:165-201 | the candidate has the function's name, a `{{name}}` placeholder and the bound argument for exactly the column parameters, and the allowed arguments frozen onto the others |
| `ProfilingRules.JoinedSplitsIff` | app/src/databricks_labs_dqx_app/backend/profiling_rule_builder.py:106-111 | splitting undoes the comma join exactly when no name holds a comma |
| `ProfilingRules.ColumnComesBackIff` | app/src/databricks_labs_dqx_app/backend/profiling_rule_builder.py:97-114 | a column argument comes back exactly when it is one name, or comma-free names listed for a many-column slot |
| `ProfilingRules.SplitCanBeUndone` | app/src/databricks_labs_dqx_app/backend/profiling_rule_builder.py:176-201 | each original argument is given back by mapping and frozen values exactly when it is of the kind that survives |
| `ProfilingRules.SameRuleIff` | app/src/databricks_labs_dqx_app/backend/profiling_rule_builder.py:189-195 | two checks of one function get equal canonical data exactly when their frozen values agree, whatever their columns |
| `ViewSweep.DecimalRoundTrip` | mcp-server/server/utils.py:464 | the printed epoch is digits and parses back |
| `ViewSweep.NameParses` | mcp-server/server/utils.py:605 | the sweeper's pattern reads the creation epoch out of every name that creation gives |
| `ViewSweep.EpochIff` | mcp-server/server/utils.py:605 | only names of exactly the pattern are read as temporary views, each with its own epoch |
| `ViewSweep.SweepStaleViews` | mcp-server/server/utils.py:647-705 | the loop attempts a drop for exactly the listed names that are stale, and counts the attempts |
| `ViewSweep.AttemptedIff` | mcp-server/server/utils.py:694-702 | a name is attempted exactly when it is listed, parses and is too old; others are untouched |
| `ViewSweep.AttemptsInOrder` | mcp-server/server/utils.py:690-702 | rows are taken one by one in order, and a row without a name is never attempted |
| `ViewSweep.SweepSparesTheYoung` | mcp-server/server/utils.py:636-702 | a view is left alone up to its lifetime, at least 900 seconds for any configured one, and always attempted a second after |
| `ViewSweep.AttemptDrops` | mcp-server/server/utils.py:477-502 | an attempt on a parsed name becomes a DROP of exactly that view when catalog and schema are safe names, nothing otherwise |
| `RunPoll.IntervalAtLeast` | mcp-server/server/utils.py:930 | the pause never falls below the smaller of the first pause and the cap |
| `RunPoll.PausesGrow` | mcp-server/server/utils.py:918-930 | the first pause is the configured one, and every later one has grown by half each time, up to the cap |
| `RunPoll.BudgetIs` | mcp-server/server/utils.py:916-917 | the budget is the wait asked for, at least nothing, and without one the configured wait, at most 55 seconds |
| `RunPoll.WaitingPause` | mcp-server/server/utils.py:925-930 | one more pause keeps the budget, the pacing and the count |
| `RunPoll.GetRunStatus` | mcp-server/server/utils.py:916-930 | the wait ends; the status is the last check's answer and every earlier answer was 'running'; what was slept follows the backoff and sums to at most the budget; 'running' means the budget is spent; the number of checks is bounded |
| `WheelPublish.DigestInput` | mcp-server/server/bootstrap.py:81-89 | the chunked loop feeds name, size and all contents to the digest |
| `WheelPublish.StreamIsInjective` | mcp-server/server/bootstrap.py:81-89 | different wheels never feed the same bytes |
| `WheelPublish.WheelsVolume.PublishRunnerWheel` | mcp-server/server/bootstrap.py:101-155 | one startup changes the volume and the marker, and reports, as the specification says, for every way its uploads can fail |
| `WheelPublish.ReportsIff` | mcp-server/server/bootstrap.py:101-155 | a startup reports its wheel exactly when it is enabled, has a wheel the job can install, and finds it marked or gets both uploads through |
| `WheelPublish.ReportedIsUploaded` | mcp-server/server/bootstrap.py:137-147 | a startup that reports and did not find its wheel marked leaves wheel and marker on the volume |
| `WheelPublish.TouchesOnlyOwn` | mcp-server/server/bootstrap.py:116-147 | no startup touches a file of another name; one that is disabled, drifted or finds its wheel marked touches nothing; the marker moves only after the wheel is uploaded |
| `WheelPublish.PublishHonestIff` | mcp-server/server/bootstrap.py:139-145 | one startup keeps the marker honest exactly when it does not, unable to read the marker, tear the very wheel the marker names |
| `WheelPublish.MarkerMeansPublished` | mcp-server/server/bootstrap.py:137-147 | after every sequence of startups that tears no wheel the marker names at that moment, a marker equal to a wheel's digest means the volume holds that wheel under its name |
| `WheelPublish.ReportedIsHeld` | mcp-server/server/bootstrap.py:139-147 | after every such sequence a startup that reports a published wheel leaves the volume holding it |
| `WheelPublish.NextStartIsNoOp` | mcp-server/server/bootstrap.py:139-147 | once both uploads went through the next start with the same wheel changes nothing |
| `WheelPublish.DriftNeverPublished` | mcp-server/server/bootstrap.py:116-131 | over every sequence of startups each file on the volume and any wheel the marker names was given to a startup that could install it: a drifted wheel is never published |
| `WheelPublish.MarkerHonestIff` | mcp-server/server/bootstrap.py:137-147 | every such sequence with wheels of a set keeps the marker honest exactly when no two of them share a filename |
| `WheelPublish.ReusedNameBreaksMarker` | mcp-server/server/bootstrap.py:139-145 | for any two different wheels of one filename two startups leave a marker for a wheel that is gone |
| `WheelPublish.UnreadableTearBreaksMarker` | mcp-server/server/bootstrap.py:92-98 | any wheel whose upload is torn in a startup that could not read the marker stays named by the marker though it is gone |
| `MarketplaceRelease.TagsNameReleases` | app/scripts/release_marketplace.py:48-54 | a tag names a release exactly when it is the prefix and three numbers with dots between; the release is that version's, on the branch of that version |
| `MarketplaceRelease.TryRelease` | app/scripts/release_marketplace.py:111-159 | whatever command fails, the flags tell exactly what was changed |
| `MarketplaceRelease.CleanUp` | app/scripts/release_marketplace.py:161-180 | clean-up without failures undoes an incomplete release exactly and keeps a complete one; it never touches what was there before |
| `MarketplaceRelease.ReleaseMarketplace` | app/scripts/release_marketplace.py:62-191 | the attempt returns exactly when the facts fit and every command it runs ends as needed, and has then run every step in order; raising without a failed clean-up leaves branches and tags as before; returning leaves new branch and tag on one commit and no worktree |
| `CatalogName.CatalogOf` | app/src/databricks_labs_dqx_app/backend/metrics_utils.py:15-32 | the index loop finds the first backtick that is not doubled, or falls back to the text before the dot |
| `CatalogName.QuotedNameComesBack` | app/src/databricks_labs_dqx_app/backend/metrics_utils.py:18-29 | every catalog name, with any dots and backticks, survives quoting |
| `CatalogName.UnclosedNameIsCut` | app/src/databricks_labs_dqx_app/backend/metrics_utils.py:18-32 | a name whose quote never closes is cut at its first dot |
| `CatalogName.PlainNameComesBack` | app/src/databricks_labs_dqx_app/backend/metrics_utils.py:31-32 | an unquoted name without a dot or leading backtick comes back unchanged |

## Left out

- LowcodeMeaning.EveryOperatorReads: operands, function calls and RLIKE are uninterpreted; what contains, TRY_CAST, sentiment or luhn_check compute is not modelled, only how their text is read.
- LowcodeStack.StackReads: the combinator of every row after the first is AND or OR in upper case; the reader knows no other connective, so text with another word is emitted by the model but not claimed to be read.
- LowcodeStack.StackWellFormedIff: well formed means that every connective, NOT and operator has something on both sides and every list has all its items; types and function arity are not checked.
- PredicateSlots.DeclaredSlots: columns are identifiers other than the input-view marker, or dotted paths without braces, and literals hold no `{{`, as the scanner itself assumes.
- LowcodeBody.BodyOutputs: merge keys are single placeholders without blanks, quotes, brackets, commas or braces; a joined key keeps its dotted text and its output name is not modelled.
- SqlText.LiteralReadsBackIff: a backslash and the character after it are kept as written; which character they stand for is a parameter where it matters.
- BraceRefs.BraceBareSlotRefs: letters and digits of names are ASCII, as in the patterns, and upper-casing is ASCII.
- NativePredicates.EqualPair: numbers are reals; rounding, infinities and NaN are not modelled, nor is a tolerance that is no number.
- NativePredicates.ListChecks: lower-casing of an item's text is a parameter.
- SingleFlight.OneFetchPerKey: the event loop's order of ready tasks is not assumed, so more interleavings are covered than one loop produces; resolving the key from the arguments is left out.
- Cache.CacheFactory.Read: the clock is a parameter of each operation.
- Fingerprint.SameFormIff: the library's normalizer is a parameter; JSON serialization and SHA-256 are taken as injective and left out.
- ProfilingRules.BuildProfilingRule: the function registry, the slot family and the SQL safety scan are parameters; the descriptive metadata and the derived rule name are left out.
- ViewSweep.SweepStaleViews: digits are ASCII digits; identifier validation of the catalog and the SQL that lists the views are left out.
- RunPoll.GetRunStatus: the poll intervals are positive, as every default is; the authorization rules of one status check are left out.
- WheelPublish.MarkerMeansPublished: a torn marker upload is taken to leave no wheel's digest; the search for the wheel file is left out.
- MarketplaceRelease.ReleaseMarketplace: a failing command has no effect, and what the reads before the first change return is a parameter.
- The operator names themselves are constructors of the row vocabulary, grouped by the text they give.
- Further native checks (URLs, addresses, dates, JSON) are single emitted atoms and would only add easy members.
- `lowcode_is_usable`, `parse_check_metrics`, `schema_of`, the numeric helpers, staged-file sweeping and the extra wheels are thin and left out.
- Warehouse execution, the Databricks SDK, FastAPI wiring and user interface code are not part of this model.
