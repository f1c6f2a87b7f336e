# Thought Scribe: classify-and-extract core in Dafny

Thought Scribe turns a dictated voice memo into structured data. A memo can
become a task list, a table or a plain note. This project models the part
that decides and extracts, as it is written in `src/utils/aiProcessor.ts`:

- `processTranscription` asks a remote service first. If the request fails in
  any way, it falls back to `fallbackProcessing`.
- `fallbackProcessing` lower-cases the memo and looks for fixed keyword lists.
  A todo keyword makes a task list. Otherwise a table keyword makes a table.
  Otherwise the memo is a note.
- `extractTodos` first takes task lines from the memo's lines, after removing
  list markers. When none qualify, `extractTasksFromNaturalLanguage` takes
  sentences instead.
- `extractTable` finds headers in one of three ways: a header phrase, the
  first line, or the generic `Column 1..3`. It then takes rows from delimited
  lines, or from the words of sentences.

It also models three data operations of `src/components/ResultDisplay.tsx`:

- the CSV text built by `downloadAsCSV`;
- the todo toggle `handleTodoToggle`;
- the text copied by "Copy List".

The files:

- `types.dfy` has the records of `src/types/index.ts`.
- `text.dfy` has the JavaScript string built-ins the code relies on: `trim`,
  `toLowerCase`, `includes`, `split` and `join`.
- `list_ops.dfy` has `map` and `filter`.
- `todos.dfy`, `table.dfy` and `processor.dfy` model `aiProcessor.ts`.
- `result_display.dfy` models the component.

The two loops in `aiProcessor.ts` are methods proved equal to the functions
that specify them: `ExtractTasksFromNaturalLanguage` and `ExtractTable`, with
its padding `while` loop and its `Array(n).fill` loop. So is the
`csvContent +=` loop of `downloadAsCSV` (`BuildCsvContent`). The toggle is a
method on a class whose item objects are shared, as the JavaScript array copy
shares them.

Two behaviours of the code may surprise a reader. The model follows the code:

- A reader might expect `columns are Name, Age, City` to give the headers
  `Name`, `Age` and `City`. The code does not do that, because the capture
  group of its regex belongs only to the last alternative, `columns include`.
  So `columns are`, `headers include` and `fields are` match but capture
  nothing, and never yield headers. A one-line memo of that shape gets no
  headers and one empty row (`ColumnsAreOneLine`, `OtherPhrasesGiveNoHeaders`).
- A reader might expect a memo of several sentences on one line to give one
  task per sentence. The code does not do that, because the structured pass
  splits only at line breaks and at numbered markers such as `1. `, not at
  sentence ends. Sentences only matter when no line qualifies. The general
  rule for a memo that yields a single line (`SingleLineTask`,
  `SingleLineFallback`): when the cleaned line is longer than 3 characters
  and not a stop word, it is the only task; otherwise the sentences decide.
  The cleaned line has its numbered marker turned into a line break, its
  bullets removed and its ends trimmed, so `1. buy milk` gives `buy milk` and
  `- buy milk` gives `buy milk`. A short line such as `ok.` fails the test
  and goes to the sentence pass, which gives `ok`. A one-line memo with no
  numbered marker and no removable bullet, longer than 7 characters once
  trimmed, is thus one task holding the trimmed memo (`OneLineMemo`,
  `NeedToMemo`); digits that start no marker stay, as in `buy 2 apples`,
  `at 3.30` or `1.5 kg` (`KeptNonMarker`, `ReplaceNumberMarkersUnchanged`).

A hyphen, `*` or `•` is removed only at the very start of a line or with
white space on both sides, and then the white space goes with it. So
`x-ray`, `well-known` and `a -b` are kept as they are
(`RemoveSpacedBulletsUnchanged`), while `call x-ray - film` becomes
`call x-rayfilm` (`SpacedBulletRemoved`) and `buy x -y - z` becomes
`buy x -yz`: the space before `-y` stays (`KeptUnmatched`).

Header names lose every `and`, even inside a word: `Brand` becomes `Br`
(`AndDeletedInsideWords`). The code does this, so the model does too.

The three built-in sample memos of `src/components/VoiceRecorder.tsx:78-80`
are covered by lemmas about memos of their shape. The first and third are one
line, contain `need to`, and have no digit, bullet or line break. The lemma
`NeedToMemo` proves each becomes one open task holding the trimmed memo. The
second is one line with `spreadsheet`, at least two comma-separated cells and
no header phrase. `OneLineTableTranscript` proves it becomes a table with no
headers and the single row `[]`.

## Model

| member | source | states |
|---|---|---|
| TextOps.ToLower | src/utils/aiProcessor.ts:29 | lower-casing keeps the length and maps each character on its own (ASCII letters) |
| TextOps.Trim | src/utils/aiProcessor.ts:87 | the result has no white space at either end, is the input minus its leading white-space run and a blank suffix, and is empty exactly when the input is blank |
| TextOps.TrimIdempotent | src/utils/aiProcessor.ts:87 | trimming twice is trimming once |
| TextOps.TrimLong | src/utils/aiProcessor.ts:87 | trimming keeps at least as many characters as lie from one non-space character to another, and the white space it drops at the front ends before the first of them |
| TextOps.TrimKeepsSpan | src/utils/aiProcessor.ts:87 | every character from one non-space character to another is in the trimmed text, in place, shifted left by the leading white space |
| TextOps.Includes | src/utils/aiProcessor.ts:59 | `includes` holds exactly when the pattern occurs at some index |
| TextOps.IncludesAny | src/utils/aiProcessor.ts:59 | `some(... includes ...)` holds exactly when some pattern is included |
| TextOps.RestOfLine | src/utils/aiProcessor.ts:151 | the regex group `(.*)` takes the longest prefix free of line terminators |
| TextOps.RemoveAll | src/utils/aiProcessor.ts:155 | deleting every occurrence of a pattern never lengthens the text |
| TextOps.RemoveAllNotIncluded | src/utils/aiProcessor.ts:155 | a text in which the pattern does not occur is left unchanged |
| TextOps.RemoveAllStep | src/utils/aiProcessor.ts:155 | the text before the first occurrence is kept, that occurrence is deleted, and deletion goes on after it |
| TextOps.Split | src/utils/aiProcessor.ts:144 | `split` gives at least one piece and no piece holds a separator |
| TextOps.SplitRuns | src/utils/aiProcessor.ts:115 | splitting at runs of `.`, `!`, `?` gives at least one piece and no piece holds a separator |
| TextOps.SplitRunsRun | src/utils/aiProcessor.ts:115 | a whole run of separators, however long, closes exactly one piece |
| TextOps.SplitRunsStep | src/utils/aiProcessor.ts:115 | the text before the first run of separators is the first piece, and the pieces after it are those of the rest, in order |
| TextOps.SplitJoin | src/components/ResultDisplay.tsx:156 | joining with a one-character separator that no piece holds, then splitting, gives the pieces back |
| TextOps.NonBlank | src/utils/aiProcessor.ts:144 | the filter keeps every non-blank string of the input and nothing else |
| TextOps.NonBlankAppend | src/utils/aiProcessor.ts:144 | the filter keeps order: filtering two runs is filtering each, in order |
| TextOps.NonBlankSingle | src/utils/aiProcessor.ts:144 | one string is kept exactly when it is not blank |
| TextOps.DropEmpty | src/utils/aiProcessor.ts:157 | the filter keeps every non-empty string of the input and nothing else |
| TextOps.DropEmptyAppend | src/utils/aiProcessor.ts:183 | the filter keeps order: filtering two runs is filtering each, in order |
| TextOps.Sentences | src/utils/aiProcessor.ts:115 | every sentence is non-blank and holds no `.`, `!` or `?` |
| TextOps.SentencesStep | src/utils/aiProcessor.ts:115 | sentences come in text order: the text before the first run of `.`, `!`, `?` is the first sentence unless blank, and the rest gives the others |
| TextOps.OneSentence | src/utils/aiProcessor.ts:115 | a text without sentence ends is one sentence, or none when blank |
| TodoExtraction.ReplaceNumberMarkers | src/utils/aiProcessor.ts:77 | replacing the markers never lengthens the text, since each marker has at least 3 characters and becomes one line feed; `ReplaceNumberMarkersStep`, `KeptNonMarker` and `ReplaceNumberMarkersUnchanged` state what is kept and what is replaced |
| TodoExtraction.NumberMarkerLength | src/utils/aiProcessor.ts:77 | a numbered marker is one or more digits, a dot and one white-space character |
| TodoExtraction.NumberMarkerComplete | src/utils/aiProcessor.ts:77 | digits, a dot and a white-space character at the front are always matched as a marker of exactly that length |
| TodoExtraction.ReplaceNumberMarkersPrefix | src/utils/aiProcessor.ts:77 | no marker starts inside text without digits, so such a prefix is kept |
| TodoExtraction.ReplaceNumberMarkersStep | src/utils/aiProcessor.ts:77 | text without digits before a marker is kept, the marker becomes a line break, and the rest is processed the same way |
| TodoExtraction.ReplaceNumberMarkersNoDigits | src/utils/aiProcessor.ts:77 | a text without digits has no numbered marker to replace |
| TodoExtraction.KeptNonMarker | src/utils/aiProcessor.ts:77 | a character where no marker starts, such as the digit of `buy 2 apples`, `at 3.30` or `1.5 kg`, is kept and replacement goes on after it |
| TodoExtraction.ReplaceNumberMarkersUnchanged | src/utils/aiProcessor.ts:77 | replacement leaves a text unchanged exactly when no digit, full stop and white-space character occur in a row in it |
| TodoExtraction.NoMarkerKept | src/utils/aiProcessor.ts:77 | a text with no digit, full stop and white space in a row is kept as it is |
| TodoExtraction.MarkerShortens | src/utils/aiProcessor.ts:77 | a digit, full stop and white space in a row anywhere make the result strictly shorter |
| TodoExtraction.NormalizeLineEndings | src/utils/aiProcessor.ts:78 | no carriage return is left after line endings are normalised |
| TodoExtraction.NormalizeLineEndingsPrefix | src/utils/aiProcessor.ts:78 | text before the first carriage return is kept as it is |
| TodoExtraction.NormalizeCrLf | src/utils/aiProcessor.ts:78 | a `\r\n` pair becomes one line feed, the text before it is kept and the rest is normalised the same way |
| TodoExtraction.NormalizeLoneCr | src/utils/aiProcessor.ts:78 | a carriage return not followed by a line feed becomes one line feed, the text before it is kept and the rest is normalised the same way |
| TodoExtraction.NormalizeLineEndingsNoReturn | src/utils/aiProcessor.ts:78 | a text without carriage returns is left unchanged |
| TodoExtraction.StripBullets | src/utils/aiProcessor.ts:86 | the two alternatives of the regex: stated by `LeadingBulletStripped`, `LeadingBulletRemoved`, `SpacedBulletRemoved` and `StripBulletsNoLeading` |
| TodoExtraction.RemoveSpacedBullets | src/utils/aiProcessor.ts:86 | the global `\s+[-*•]\s+` deletion: stated by `RemoveSpacedBulletsUnchanged`, `RemoveSpacedBulletsPrefix`, `KeptUnmatched`, `SpacedBulletsDeleted` and `RemoveSpacedBulletsShorter` |
| TodoExtraction.StripBulletsNoLeading | src/utils/aiProcessor.ts:86 | without a bullet at the very start, only bullets with white space on both sides are deleted |
| TodoExtraction.RemoveSpacedBulletsPrefix | src/utils/aiProcessor.ts:86 | a prefix in which no bullet follows white space, and which does not end in white space, is kept, whatever follows it |
| TodoExtraction.KeptUnmatched | src/utils/aiProcessor.ts:86 | a character where no spaced bullet starts, including white space before an unspaced bullet as in `" -a - b"`, is kept and deletion goes on after it |
| TodoExtraction.LeadingBulletStripped | src/utils/aiProcessor.ts:86 | a bullet at the very start of a line goes, and after it only bullets with white space on both sides are deleted |
| TodoExtraction.RemoveSpacedBulletsUnchanged | src/utils/aiProcessor.ts:86 | the deletion leaves a text unchanged exactly when no bullet in it has white space on both sides |
| TodoExtraction.SpacedBulletShortens | src/utils/aiProcessor.ts:86 | a bullet with white space on both sides anywhere makes the deletion shorten the text |
| TodoExtraction.RemoveSpacedBulletsShorter | src/utils/aiProcessor.ts:86 | the deletion never lengthens the text |
| TodoExtraction.LeadingBulletRemoved | src/utils/aiProcessor.ts:86 | a bullet at the start of a line is removed, and the rest is left unchanged exactly when no bullet in it has white space on both sides, so `- x-ray` cleans to ` x-ray` |
| TodoExtraction.SpacedBulletRemoved | src/utils/aiProcessor.ts:86 | the first bullet with white space on both sides is removed together with that white space; before it only a leading bullet goes, and removal goes on in the rest of the line |
| TodoExtraction.SpacedBulletsDeleted | src/utils/aiProcessor.ts:86 | the deletion keeps the text before the first spaced bullet, deletes that bullet with its white space, and goes on after it |
| TodoExtraction.SpacedBulletExample | src/utils/aiProcessor.ts:86 | `a - b` cleans to `ab`: the spaces around a bullet go with it |
| TodoExtraction.TodoLines | src/utils/aiProcessor.ts:76-80 | the candidate lines are non-blank and hold no line feed |
| TodoExtraction.CleanLine | src/utils/aiProcessor.ts:85-87 | a cleaned line has no white space at either end |
| TodoExtraction.KeptAsTask | src/utils/aiProcessor.ts:90-91 | the test a cleaned line passes to become a task: longer than 3 and not a stop word once lower-cased; used by `TasksOfSingleLine` and `TasksOfLinesValid` |
| TodoExtraction.TasksOfLines | src/utils/aiProcessor.ts:83-98 | there is at most one task per line |
| TodoExtraction.TasksOfLinesValid | src/utils/aiProcessor.ts:83-98 | every task is open, passes the length and stop-word test, is trimmed, and is the cleaned form of one of the lines |
| TodoExtraction.TasksOfSingleLine | src/utils/aiProcessor.ts:83-98 | one line gives its cleaned form as an open task when that passes the test, and nothing otherwise |
| TodoExtraction.StructuredTodos | src/utils/aiProcessor.ts:75-98 | the tasks of the candidate lines: stated by `StructuredTodosValid`, `StructuredTodosEmpty` and `TasksOfLinesAppend` |
| TodoExtraction.TasksOfLinesAppend | src/utils/aiProcessor.ts:83-98 | the tasks of two runs of lines are the tasks of each, in order |
| TodoExtraction.StructuredTodosValid | src/utils/aiProcessor.ts:83-98 | every structured task is open, longer than 3, not a stop word, trimmed, and the cleaned form of some line |
| TodoExtraction.StructuredTodosEmpty | src/utils/aiProcessor.ts:83-98 | the structured pass finds nothing exactly when no cleaned line passes the length and stop-word test |
| TodoExtraction.HasTaskIndicator | src/utils/aiProcessor.ts:119-122 | a sentence holds one of the nine task phrases once trimmed and lower-cased; `IndicatorNotBlank` bounds it |
| TodoExtraction.IndicatorNotBlank | src/utils/aiProcessor.ts:122 | a sentence with a task phrase has at least 4 characters once trimmed, the length of the shortest phrase |
| TodoExtraction.NaturalLanguageTasks | src/utils/aiProcessor.ts:108-139 | the fallback tasks are open, non-empty and trimmed, and some task comes out whenever the text has a sentence |
| TodoExtraction.NaturalLanguageTasksChoice | src/utils/aiProcessor.ts:115-138 | with some sentence holding a task phrase, the tasks are exactly those sentences trimmed; otherwise they are the first min(5, n) sentences trimmed |
| TodoExtraction.ExtractTasksFromNaturalLanguage | src/utils/aiProcessor.ts:108-139 | the `forEach` loop with its `push` computes the fallback tasks |
| TodoExtraction.ExtractTodos | src/utils/aiProcessor.ts:71-106 | items are open, non-empty and trimmed; they are the structured tasks when there are any, else the fallback tasks; some item comes out whenever the text has a sentence |
| TodoExtraction.SingleLineTask | src/utils/aiProcessor.ts:71-106 | when the memo yields one line whose cleaned form is longer than 3 and not a stop word, that cleaned line is the only task |
| TodoExtraction.SingleLineFallback | src/utils/aiProcessor.ts:71-106 | when the memo yields one line whose cleaned form does not qualify, the tasks are the sentence-pass tasks |
| TodoExtraction.OneLineTask | src/utils/aiProcessor.ts:83-98 | a line with no bullet at its start and none with white space on both sides, longer than 7 once trimmed, gives one open task: the trimmed line |
| TodoExtraction.CleanPlainLine | src/utils/aiProcessor.ts:85-87 | cleaning such a line only trims it |
| TodoExtraction.OneLineMemo | src/utils/aiProcessor.ts:71-106 | a one-line memo with no numbered marker, no bullet at its start and none with white space on both sides, longer than 7 once trimmed, is one open task: the trimmed memo |
| TableExtraction.AlternativeAt | src/utils/aiProcessor.ts:151 | the regex tries its alternatives in order at a position; the first that matches is chosen |
| TableExtraction.FindHeaderPhrase | src/utils/aiProcessor.ts:151 | the match is the leftmost position where some alternative matches, with the first alternative matching there, and no match means no alternative matches anywhere |
| TableExtraction.HeaderCapture | src/utils/aiProcessor.ts:151-152 | `headerMatch[1]`: stated by `ColumnsIncludeHeaders`, `OtherPhrasesGiveNoHeaders` and `NoPhraseNoHeaders` |
| TableExtraction.HeaderName | src/utils/aiProcessor.ts:155 | a header name has no white space at either end |
| TableExtraction.ExplicitHeaders | src/utils/aiProcessor.ts:151-157 | explicit headers are non-empty and trimmed |
| TableExtraction.Lines | src/utils/aiProcessor.ts:144 | the table lines are non-blank and hold no line feed |
| TableExtraction.InfersHeaders | src/utils/aiProcessor.ts:159 | header inference runs when there are no explicit headers and more than one line; used by `HeaderRules` |
| TableExtraction.Headers | src/utils/aiProcessor.ts:151-175 | the headers settled on: stated by `HeaderRules` |
| TableExtraction.DataLines | src/utils/aiProcessor.ts:159-175 | the lines left for rows, without an inferred header line: stated by `HeaderRules` |
| TableExtraction.DelimiterRows | src/utils/aiProcessor.ts:178-190 | the rows of the delimited lines: stated by `DelimiterRowsSound`, `DelimiterRowsComplete`, `DelimiterRowsAppend` and `DelimiterRowsStep` |
| TableExtraction.SentenceRows | src/utils/aiProcessor.ts:193-205 | the rows of the sentences: stated by `SentenceRowsSound` and `SentenceRowsStep` |
| TableExtraction.Words | src/utils/aiProcessor.ts:197 | words are non-blank and hold no space; a non-blank sentence without spaces is one word |
| TableExtraction.Cells | src/utils/aiProcessor.ts:180-183 | cells are non-empty, trimmed, and hold no tab, comma, semicolon or bar |
| TableExtraction.Fit | src/utils/aiProcessor.ts:187-188 | a fitted row has exactly `n` cells: the first `n` cells, padded with empty strings |
| TableExtraction.TableOf | src/utils/aiProcessor.ts:141-209 | every row has as many cells as there are headers |
| TableExtraction.DelimiterRowsStep | src/utils/aiProcessor.ts:178-190 | one more line adds its fitted row exactly when it has at least two cells |
| TableExtraction.SentenceRowsStep | src/utils/aiProcessor.ts:196-205 | one more sentence adds its first `n` words exactly when it has at least `n` words |
| TableExtraction.PadAndSlice | src/utils/aiProcessor.ts:187-188 | the padding `while` loop and `slice` give the fitted row |
| TableExtraction.LeadingWords | src/utils/aiProcessor.ts:199-202 | the `fill` and the indexed `for` loop give the first `n` words |
| TableExtraction.CollectDelimiterRows | src/utils/aiProcessor.ts:178-190 | the line loop collects the delimiter rows |
| TableExtraction.CollectSentenceRows | src/utils/aiProcessor.ts:195-205 | the sentence loop collects the sentence rows |
| TableExtraction.ExtractTable | src/utils/aiProcessor.ts:141-209 | the imperative extraction computes the table of the text |
| TableProperties.CapturingPhraseExcludesOthers | src/utils/aiProcessor.ts:151 | where `columns include` matches, no earlier alternative matches |
| TableProperties.LeftmostMatch | src/utils/aiProcessor.ts:151 | the leftmost, first-listed match is the one found |
| TableProperties.ColumnsIncludeHeaders | src/utils/aiProcessor.ts:151-157 | a leftmost `columns include` captures the rest of its line, and the headers are its comma- or semicolon-separated names with `and` deleted, trimmed, empty ones dropped |
| TableProperties.OtherPhrasesGiveNoHeaders | src/utils/aiProcessor.ts:151-157 | a leftmost `columns are`, `headers include` or `fields are` captures nothing and gives no explicit headers |
| TableProperties.NoPhraseNoHeaders | src/utils/aiProcessor.ts:151-157 | without a header phrase there are no explicit headers |
| TableProperties.ColumnsAreFirst | src/utils/aiProcessor.ts:151-157 | a text opening with `columns are`, in any case, has no explicit headers |
| TableProperties.AndDeletedInsideWords | src/utils/aiProcessor.ts:155 | `and` is deleted inside words too: `Brand` becomes `Br` |
| TableRows.HeaderRules | src/utils/aiProcessor.ts:159-175 | explicit headers win; else with two or more lines a first line of 2 to 10 cells becomes the headers and leaves the data; else the generic three; with one line or none there are no headers |
| TableRows.NoHeadersEmptyRows | src/utils/aiProcessor.ts:185-188 | without headers every delimiter row is empty |
| TableRows.DelimiterRowsSound | src/utils/aiProcessor.ts:178-190 | every delimiter row is a data line with at least two cells, fitted to the header count |
| TableRows.DelimiterRowsComplete | src/utils/aiProcessor.ts:178-190 | every data line with at least two cells yields its fitted row |
| TableRows.DelimiterRowsAppend | src/utils/aiProcessor.ts:178-190 | the rows of two runs of lines are the rows of each, in order |
| TableRows.SentenceRowsSound | src/utils/aiProcessor.ts:193-206 | every fallback row is the first `n` words of a sentence with at least `n` words |
| TableRows.SentenceRowsWithoutHeaders | src/utils/aiProcessor.ts:196-204 | without headers every sentence yields one empty row |
| TableRows.OneLineTable | src/utils/aiProcessor.ts:141-209 | a one-line text with two or more cells and no explicit headers gives no headers and the single row `[]` |
| AiProcessor.ContainsTodoPattern | src/utils/aiProcessor.ts:53-60 | holds exactly when one of the nine todo patterns occurs in the text |
| AiProcessor.ContainsTablePattern | src/utils/aiProcessor.ts:62-69 | holds exactly when one of the nine table patterns occurs in the text |
| AiProcessor.FallbackProcessing | src/utils/aiProcessor.ts:28-51 | the raw memo is kept; the kind is never UNKNOWN; TODO exactly when a todo pattern occurs in the lower-cased memo, TABLE exactly when only a table pattern does, NOTE otherwise; the content is the extracted todos, the extracted table or the memo |
| AiProcessor.ProcessTranscription | src/utils/aiProcessor.ts:3-26 | a successful response's body is returned as it is; a thrown request, a non-ok status or an unparsable body gives the keyword result |
| AiProcessorProperties.FailureFallsBack | src/utils/aiProcessor.ts:15-24 | every kind of failure gives the keyword result, which keeps the memo and is never UNKNOWN |
| AiProcessorProperties.SuccessIsUnchecked | src/utils/aiProcessor.ts:19 | a successful body may be UNKNOWN and may name another memo; UNKNOWN only ever comes from a successful body |
| AiProcessorProperties.EmptyTranscriptIsNote | src/utils/aiProcessor.ts:28-51 | the empty memo is a NOTE with empty content |
| AiProcessorProperties.TodoPatternWins | src/utils/aiProcessor.ts:29-36 | a todo pattern in any case anywhere makes a task list, whatever table words the memo holds |
| AiProcessorProperties.NeedToMemo | src/components/VoiceRecorder.tsx:78-80 | a one-line memo with `need to` after some word and without digits or bullets becomes one open task: the trimmed memo |
| AiProcessorProperties.OneLineTableTranscript | src/components/VoiceRecorder.tsx:79 | a one-line memo with a table word, no todo word, no explicit headers and two or more cells becomes a table with no headers and the row `[]` |
| AiProcessorProperties.ColumnsAreOneLine | src/utils/aiProcessor.ts:151-175 | a one-line table that opens with `columns are` and has two or more comma-separated cells gets no headers and the single row `[]` |
| ResultDisplay.DoubleQuotes | src/components/ResultDisplay.tsx:75 | only quotes are added, exactly one per quote of the input; a text without quotes is unchanged |
| ResultDisplay.DoubleQuotesAppend | src/components/ResultDisplay.tsx:75 | doubling works piece by piece, in order |
| ResultDisplay.DoubleQuotesChar | src/components/ResultDisplay.tsx:75 | a quote becomes two quotes and any other character stays |
| ResultDisplay.CollapseDoubled | src/components/ResultDisplay.tsx:75 | collapsing the doubled quotes restores the text |
| ResultDisplay.EscapeCell | src/components/ResultDisplay.tsx:73-78 | a cell with no comma and no quote is unchanged; any other is wrapped in quotes, and unwrapping and collapsing gives the cell back |
| ResultDisplay.EscapeRoundTrip | src/components/ResultDisplay.tsx:73-78 | reading an escaped field back gives every cell, plain or quoted, unchanged |
| ResultDisplay.Record | src/components/ResultDisplay.tsx:73-80 | the line of one row: stated by `RecordOneLine`, `PlainRecordSplit` and `EscapeRoundTrip` |
| ResultDisplay.HeaderRecord | src/components/ResultDisplay.tsx:70 | the header line: stated by `HeadersVerbatim` and `CsvText` |
| ResultDisplay.RowLines | src/components/ResultDisplay.tsx:71-80 | the row lines: stated by `RowLinesPush` and `RowLinesSplit` |
| ResultDisplay.CsvText | src/components/ResultDisplay.tsx:70-81 | the text starts with the headers joined by commas and a line feed, ends with a line feed, and is only the header line when there are no rows |
| ResultDisplay.RowLinesPush | src/components/ResultDisplay.tsx:80 | one more row appends exactly its line |
| ResultDisplay.BuildCsvContent | src/components/ResultDisplay.tsx:66-81 | the `+=` loop builds the CSV text of the table |
| ResultDisplay.CsvLines | src/components/ResultDisplay.tsx:70-81 | without line breaks in the data, the lines are the header line, one line per row in order, and a final empty piece |
| ResultDisplay.PlainRecordSplit | src/components/ResultDisplay.tsx:73-80 | a row of plain cells splits at commas back into its cells |
| ResultDisplay.HeadersVerbatim | src/components/ResultDisplay.tsx:70 | headers go out verbatim, so a header with a comma reads back as two fields |
| ResultDisplay.Toggled | src/components/ResultDisplay.tsx:46-50 | toggling keeps the length and every text, flips the flag of the chosen item, and leaves the other items alone |
| ResultDisplay.ToggleTwice | src/components/ResultDisplay.tsx:46-50 | toggling one item twice restores the list |
| ResultDisplay.ToggleCommutes | src/components/ResultDisplay.tsx:46-50 | toggles of two items can be made in either order |
| ResultDisplay.TodoPanel.HandleTodoToggle | src/components/ResultDisplay.tsx:46-50 | the list keeps the same item objects, and their values are the old values toggled at the index |
| ResultDisplay.CopyListText | src/components/ResultDisplay.tsx:156 | the copied text: stated by `CopyListEmpty` and `CopyListLines` |
| ResultDisplay.CopyListEmpty | src/components/ResultDisplay.tsx:156 | an empty list copies as the empty text |
| ResultDisplay.CopyListLines | src/components/ResultDisplay.tsx:156 | single-line todos copy as exactly one `- ` line per todo, in order, with no trailing line feed |

## Left out

- The request in `processTranscription` is not modelled. This covers `fetch`, the JSON request body, the service behind it and `console.error`. Their outcome is a parameter (`FetchOutcome`): thrown, or a response with its `ok` flag, status and parsed body.
- A successful response body of any other shape is not modelled. `response.json()` is returned unchecked and may not be a `ProcessedResult` at all. The model's body is always a well-formed `ProcessedResult`.
- `src/api/anthropicApi.ts`, `src/components/ApiConfig.tsx`, `src/components/TranscriptionProcessor.tsx` and `src/pages/Index.tsx` are not part of this model. They are the remote call, key storage and page wiring.
- `src/components/VoiceRecorder.tsx` is not part of this model. This covers recording and the random choice of a sample memo. Its three sample memos are covered by shape lemmas only.
- Browser I/O in `ResultDisplay.tsx` is left out: the Blob, URL and link download, the clipboard, the toasts, and the React effect and rendering.
- TextOps.ToLower: lower-cases ASCII letters only, whereas `toLowerCase` also maps other Unicode letters. The keyword and phrase lists are ASCII, so a non-ASCII letter can only affect a match through a case mapping that yields ASCII, such as the Kelvin sign.
- TextOps.Trim: white space is the ECMAScript set of white-space and line-terminator code points. Strings are sequences of code points rather than UTF-16 units.
- ResultDisplay.TodoPanel.HandleTodoToggle: assumes each item object appears once in the list. The page's item objects come from one extraction or one parsed body, so they are distinct. The same objects are also held by the displayed result, and that sharing is not tracked.
- TodoExtraction.OneLineMemo: covers only memos without a numbered marker or a removable bullet, and requires more than 7 characters after trimming, a sufficient condition for not being a stop word. The exact rule for any memo that yields one line, markers and bullets included, is `SingleLineTask` and `SingleLineFallback`.
