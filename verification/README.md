# DocxTemplateEngine in Dafny

A model of `main.py`, a small template engine for word-processing documents. A template
marks its instructions with the style `CoupaMarkUp`. That style is given either to whole
paragraphs (paragraph style) or to runs of text (character style, matched when the run's
style name contains `CoupaMarkUp`). The script runs three passes over a document:

- **The variable pass** (`processVariables`) looks up every instruction in a map of
  variables.
  - An instruction paragraph whose trimmed text is a key has that text replaced.
  - Each block of adjacent instruction runs whose merged, trimmed text is a key is
    replaced by the value. The value keeps the block's surrounding whitespace and is put
    into the run before the block, or into the run after it when the block starts at
    run 0. The block's own runs are emptied.
- **The table pass** (`processTables`) overwrites every instruction paragraph in every
  table cell with `PROCESSED`.
- **The repeat pass** (`processRepeatParagraphs`) acts on each `repeat_<n>` instruction
  paragraph. The loop runs over the paragraphs as they were when it started. For the
  opener at index `i` of that list it searches the current list, from index `i + 1`, for
  the last instruction paragraph starting with `end`. It then inserts one paragraph,
  `Inserted paragraph`, one place after the end index it holds. Once earlier openers
  have inserted paragraphs, index `i + 1` of the current list may lie before the opener.
  A search that finds no terminator keeps the end index an earlier opener left.

A fourth routine, `printProcessingInstructions`, reports the instructions of a document.
It is modelled as a method that returns what it would print.

Modules, one per file:

- `Errors` (errors.dfy): the Python exceptions the script can raise (`KeyError`,
  `IndexError`, `ValueError`, `UnboundLocalError`) and `Result`/`Outcome` to carry them.
- `Strings` (strings.dfy): Python's `str.isspace`, `strip`/`lstrip`/`rstrip`,
  `str.replace`, `str.find(...) == 0` and `int()`.
- `Docs` (docs.dfy): runs, paragraphs, cells, rows, tables, and the `text` property and
  its setter.
- `Scanning` (scanning.dfy): blocks of adjacent instruction runs ("spans"), and the
  scanner of `printProcessingInstructions`.
- `Substitution` (substitution.dfy): `replaceVariableRunInstruction` and the run loop of
  `processVariables`, as methods on an `array<Run>`.
- `Variables` (variables.dfy): the paragraph-level lookup, and `processVariables` over a
  list of paragraphs.
- `Tables` (tables.dfy): `processTables`.
- `Repeat` (repeat.dfy): `processRepeatParagraphs`.
- `Engine` (engine.dfy): a `Document` class whose `paragraphs` and `tables` fields the
  passes update in place, and the three passes in the order of lines 166-168.

The script stops at the first exception it raises. Every pass therefore returns either
its result or the error that stopped it. A method that changes the document reports
`Pass` or `Fail(error)`, and on `Pass` its new state is the one the specification
function computes.

The map of variables is hard-coded at lines 162-165. In the model it is a parameter.

## Model

| member | source | states |
|---|---|---|
| Docs.SetText | main.py:73 | Setting a paragraph's text gives that exact text and keeps the paragraph style. The result is a single run in the default character style. |
| Docs.DefaultStyleIsNotMarkup | main.py:73 | The default character style does not contain the markup style name, so the run that setting a text creates is not an instruction run. |
| Strings.LStripIsMaximal | main.py:45 | `lstrip()` removes exactly the maximal whitespace prefix. |
| Strings.RStripIsMaximal | main.py:49 | `rstrip()` removes exactly the maximal whitespace suffix. |
| Strings.LeadingSpaceIsMaximal | main.py:45-47 | The leading whitespace taken from the length `lstrip()` removes is the maximal whitespace prefix. |
| Strings.TrailingSpaceIsMaximal | main.py:49-51 | The trailing whitespace taken with `[-n:]` is the maximal whitespace suffix. |
| Strings.StripDecomposition | main.py:42-53 | A text that is not all whitespace is its leading whitespace, then its stripped text, then its trailing whitespace. |
| Strings.SplitAroundStrip | main.py:42-53 | The stripped text is empty exactly when the text is all whitespace. An all-whitespace instruction is then both its own leading and its own trailing whitespace, so the value is wrapped in it twice. |
| Strings.ReplaceAll | main.py:73 | `str.replace` of the whole string gives the substitute. A pattern that does not occur leaves the string unchanged. |
| Strings.ParseIntOfDecimal | main.py:134 | `int()` of an integer's decimal form gives that integer back. |
| Strings.ParseSignedDigits | main.py:134 | `int()` of a digit string, with or without a minus sign, is its value or its negation. |
| Scanning.SpansAreMaximalBlocks | main.py:78-98 | The spans the run loop closes are exactly the maximal blocks of adjacent instruction runs. They come in order and are separated by at least one other run. |
| Scanning.SpansLast | main.py:96-97 | When the last run is an instruction run, the last span ends at the last run. |
| Scanning.SpanStartsAtInstruction | main.py:81-82 | Every span starts at an instruction run. |
| Scanning.NonEmptyTexts | main.py:27-31 | Only non-empty merged texts are reported, at most one per span. |
| Scanning.ScanRunsIsNonEmptyTexts | main.py:21-31 | The run loop of the scanner reports the non-empty merged texts of the maximal blocks, in order. |
| Scanning.ScanParagraph | main.py:19-31 | The scanner returns the paragraph-level instruction text (for an instruction paragraph), then the run-level instructions. |
| Substitution.SpliceSpan | main.py:55-58 | Replacing a block fails, with IndexError, exactly when the block starts at run 0 and ends at the last run. Otherwise the run count is kept. |
| Substitution.SpliceSpanEffect | main.py:55-63 | Run count and every run style are kept, and every run of the block ends up empty. The run before the block (or after it, for a block at run 0) gains the replacement at its end (or at its start). No other run changes. |
| Substitution.SpliceSpanText | main.py:38-63 | The paragraph text becomes the text before the block, then the replacement, then the text after the block. |
| Substitution.SpliceSpanReplacesKey | main.py:42-53 | The value takes the place of the trimmed instruction, between the instruction's own leading and trailing whitespace. |
| Substitution.HostIsNotInstruction | main.py:55-58 | The run that receives the replacement is never an instruction run. |
| Substitution.MergeRuns | main.py:38-40 | The loop merges the texts of runs start..end. |
| Substitution.BlankRuns | main.py:62-63 | The runs of the block, and only they, become empty. |
| Substitution.ReplaceVariableRunInstruction | main.py:33-63 | On the run array, in place: the result and new contents are those of SpliceSpan. On IndexError the array is unchanged. |
| Substitution.ReplaceIfKey | main.py:89-91 | When the merged, trimmed text is a key, the block is replaced by the value of that key. Otherwise nothing changes. |
| Substitution.RunsAfterLoopIsSubstitute | main.py:75-102 | The run loop, pass by pass, does the same as replacing each maximal block whose trimmed text is a key, from left to right. |
| Substitution.ProcessRuns | main.py:75-102 | The in-place run loop ends with SubstituteRuns of the original runs, or reports its error. |
| Substitution.SubstituteFails | main.py:85-102 | Replacing a list of blocks fails exactly when one keyed block covers every run, and then with IndexError. |
| Substitution.SubstituteRunsFails | main.py:85-102 | The run pass fails, with IndexError, exactly when all runs are instruction runs and the trimmed paragraph text is a key. |
| Substitution.SubstituteRunsMiss | main.py:90 | When no block's trimmed text is a key, the runs are unchanged. |
| Substitution.SubstituteRunsPlain | main.py:78-95 | Runs with no instruction run are unchanged. |
| Substitution.SubstituteRunsKeepsStyles | main.py:75-102 | The run pass keeps the run count and every run style. |
| Variables.ReplaceParagraphTextCases | main.py:68-73 | The paragraph lookup raises KeyError exactly when the trimmed text is a key and the text is not. A paragraph it does not rewrite is kept as it is. A rewritten paragraph keeps its style and has one non-instruction run. |
| Variables.SubstituteParagraphFails | main.py:66-104 | A paragraph fails exactly when (a) it is an instruction paragraph whose text is a key only once trimmed (KeyError), or (b) it is some other paragraph made only of instruction runs whose trimmed text is a key (IndexError). |
| Variables.KeyedParagraphFails | main.py:72-73 | An instruction paragraph with a keyed trimmed text fails exactly when its untrimmed text is not a key, and then with KeyError. |
| Variables.UnkeyedParagraphFails | main.py:75-102 | Any other paragraph fails exactly when all its runs are instruction runs and its trimmed text is a key, and then with IndexError. |
| Variables.SubstituteParagraphKeyed | main.py:72-73 | An instruction paragraph whose text is a key without surrounding whitespace ends up holding exactly the value, in one non-instruction run, and keeps its style. |
| Variables.SubstituteParagraphKeepsShape | main.py:75-102 | A paragraph that is not rewritten at paragraph level keeps its style, its run count and every run style. |
| Variables.SubstituteParagraphPlain | main.py:67-104 | A paragraph with no keyed instruction at either level is unchanged. |
| Variables.ProcessParagraph | main.py:67-104 | One pass of the paragraph loop computes SubstituteParagraph. |
| Variables.CollectAllOk | main.py:67 | When every paragraph succeeds, the pass yields the list of their results. |
| Variables.CollectFirstErr | main.py:67 | The first paragraph that raises ends the pass with its error. |
| Variables.SubstituteParagraphsAt | main.py:67 | A successful variable pass keeps the paragraph count and puts each paragraph's own result at its index. |
| Variables.SubstituteParagraphsRaises | main.py:67 | Any paragraph that raises makes the whole pass raise. |
| Variables.SubstituteParagraphsFailure | main.py:67 | A failing pass fails with the error of one of its paragraphs. |
| Tables.MarkParagraphEffect | main.py:118-120 | An instruction paragraph gets the text PROCESSED and keeps its style. Any other paragraph is unchanged. |
| Tables.MarkParagraphIdempotent | main.py:118-120 | Marking a paragraph twice is the same as marking it once. |
| Tables.MarkTables | main.py:114-120 | Each table is marked on its own; the number of tables is kept. |
| Tables.MarkTablesKeepsShape | main.py:114-117 | The pass keeps the number of tables, rows, cells and paragraphs at every level. |
| Tables.MarkTablesEffect | main.py:114-120 | At every position, an instruction paragraph reads PROCESSED with its style kept, and every other paragraph is unchanged. |
| Tables.MarkTablesIdempotent | main.py:114-120 | Running the table pass twice equals running it once. |
| Tables.ProcessCell | main.py:117-120 | The in-place loop over a cell's paragraphs computes MarkCell. |
| Tables.ProcessRow | main.py:116 | The loop over a row's cells computes MarkRow. |
| Tables.ProcessTable | main.py:115 | The loop over a table's rows computes MarkTable. |
| Repeat.RepeatCount | main.py:133-134 | A count that `int()` rejects raises ValueError. |
| Repeat.LastTerminator | main.py:137-144 | The terminator found lies inside the searched range. |
| Repeat.LastTerminatorIsLast | main.py:137-144 | The search finds the last terminator in the range, with none after it. If it finds none, the range holds no terminator. |
| Repeat.FindEnd | main.py:137-144 | The search loop runs over the current list from the given index (the opener's index in the starting list, plus one). It leaves `repeat_end_paragraph` one before the last terminator at or after that index. With no terminator there, it keeps its earlier value, which may be unbound. |
| Repeat.InsertPlaces | main.py:151 | Inserting keeps every paragraph in order and adds exactly one "Inserted paragraph", at the given index. |
| Repeat.InsertGrows | main.py:151 | One insertion raises by one the count of inserted paragraphs beyond the snapshot. |
| Repeat.OpenerStepInserts | main.py:130-151 | An opener that does not raise inserts one paragraph at index `e + 1` of the current list. Here `e` is the end index after the search from the opener's starting index plus one: one before the last terminator found, or, when none is found, the end index an earlier opener left. |
| Repeat.OpenerKeepsInvariant | main.py:130-151 | After an opener, the list holds the snapshot plus one inserted paragraph per opener seen so far. |
| Repeat.RepeatFromInvariant | main.py:125-151 | That invariant holds to the end of the outer loop. |
| Repeat.RepeatParagraphsGrowth | main.py:123-156 | A pass that does not raise adds exactly one "Inserted paragraph" per opener of the document and keeps every paragraph. |
| Repeat.BadCountRaises | main.py:125-134 | An opener anywhere in the document whose count `int()` rejects makes the pass raise. The passes before it either raise themselves or reach it, whatever they inserted. |
| Repeat.NoOpenerBetween | main.py:125-130 | Paragraphs that are not openers leave the loop state unchanged. |
| Repeat.RepeatParagraphsWithoutOpeners | main.py:123-156 | A document without openers is unchanged. |
| Repeat.FirstOpener | main.py:130-151 | At the first opener: a non-integer count raises ValueError. With no terminator after the opener, the pass raises. Otherwise one paragraph is inserted before the last terminator, and the loop goes on. |
| Repeat.SingleOpener | main.py:123-156 | A document with one valid opener followed by a terminator gains one "Inserted paragraph", immediately before the last terminator, and nothing else changes. |
| Engine.ProcessBodyShape | main.py:166-168 | When the three passes succeed, the tables are marked once. The paragraph count grows by the number of openers the variable pass left. |
| Engine.ProcessBodyTablesSettled | main.py:167 | After the passes, running the table pass again changes nothing. |
| Engine.Document.constructor | main.py:159 | A document starts with the given paragraphs and tables. |
| Engine.Document.PrintProcessingInstructions | main.py:12-31 | The method returns, paragraph by paragraph, what the scanner reports. |
| Engine.Document.ProcessVariables | main.py:66-104 | In place, the paragraphs become SubstituteParagraphs of the old ones, or the first error is reported. The tables are untouched. |
| Engine.Document.ProcessTables | main.py:107-120 | In place, the tables become MarkTables of the old ones. The paragraphs are untouched. |
| Engine.Document.ProcessRepeatParagraphs | main.py:123-156 | The loop runs over a snapshot and inserts into the live list. The paragraphs become RepeatParagraphs of the old ones, or the error is reported. The tables are untouched. |
| Engine.Document.ProcessTemplate | main.py:166-168 | The three passes, in order, give ProcessBody of the old document, or its first error. |

## Left out

- Printing (lines 20, 28, 31, 69, 87, 98, 104, 119, 127, 140, 156): nothing is printed. `PrintProcessingInstructions` returns the list of texts it would print.
- Loading and saving the file (lines 159 and 170), and the unused `copy` import: not modelled. The model starts from a document value.
- python-docx is not part of this model. Its behaviour is assumed as follows:
  - setting `p.text` leaves one run with the character style "Default Paragraph Font";
  - `insert_paragraph_before` creates a paragraph with the style "Normal" holding one run of the given text;
  - `doc.paragraphs` builds a fresh list on each access, so the assignment at line 154 changes nothing and is not modelled;
  - `copy_from_paragrph` (line 149) is read only for its IndexError.
- Parsing the repeat count (line 134): `int()` is modelled for ASCII digits, an optional sign, surrounding whitespace and single underscores between digits. Non-ASCII decimal digits, which Python also accepts, are left out. The margin `int()` skips is `str.isspace()` whitespace except U+001C..U+001F, which raise ValueError. The count is computed but not used by the script, so only its error matters.
- Strings.ParseInt: follows `int()` of an interpreter without the integer string conversion limit. CPython 3.11 and later, 3.10.7 and later, 3.9.14 and later, 3.8.14 and later and 3.7.14 and later have that limit unless `sys.set_int_max_str_digits(0)` switches it off. With the limit, `int()` raises ValueError on a decimal string of more than 4300 digits. The model parses any length, so Strings.ParseIntOfDecimal and Strings.ParseSignedDigits promise a read-back that such an interpreter gives only for strings within the limit.
- The state of the document after an exception is not modelled: the script ends there without saving, so a failing pass reports only its error.
- The map of variables (lines 162-165) is a parameter rather than the four fixed entries.
- Engine.DocumentInstructions: has no lemma relating a document's report to the reports of its parts. It is specified only through the paragraph-by-paragraph definition that `PrintProcessingInstructions` meets.
