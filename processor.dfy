/*
 * The classify-and-extract entry points of src/utils/aiProcessor.ts:
 * `processTranscription`, which prefers the remote service and falls back
 * to `fallbackProcessing`, the keyword classifier.
 */
module AiProcessor {
  import opened TextOps
  import opened Types
  import opened TodoExtraction
  import opened TableExtraction

  /** Substrings of the lower-cased transcript that make it a task list. */
  const TodoPatterns: seq<string> :=
    ["to do", "todo", "task", "list", "remember to", "don't forget", "need to", "should", "must"]

  /** Substrings of the lower-cased transcript that make it a table. */
  const TablePatterns: seq<string> :=
    ["table", "spreadsheet", "column", "row", "data", "excel", "entries", "cells", "tabular"]

  /** `containsTodoPattern`: some todo pattern occurs in `text`. */
  function ContainsTodoPattern(text: string): (r: bool)
    ensures r <==> exists k, i :: 0 <= k < |TodoPatterns| && OccursAt(text, TodoPatterns[k], i)
  {
    IncludesAny(text, TodoPatterns)
  }

  /** `containsTablePattern`: some table pattern occurs in `text`. */
  function ContainsTablePattern(text: string): (r: bool)
    ensures r <==> exists k, i :: 0 <= k < |TablePatterns| && OccursAt(text, TablePatterns[k], i)
  {
    IncludesAny(text, TablePatterns)
  }

  /**
   * `fallbackProcessing`: TODO when the lower-cased transcript has a todo
   * pattern, else TABLE when it has a table pattern, else NOTE. The
   * extractors and the result see the transcript as it was given.
   */
  function FallbackProcessing(transcription: string): (r: ProcessedResult)
    ensures r.rawTranscription == transcription
    ensures r.kind != UNKNOWN
    ensures r.kind == TODO <==> ContainsTodoPattern(ToLower(transcription))
    ensures r.kind == TABLE <==> !ContainsTodoPattern(ToLower(transcription)) && ContainsTablePattern(ToLower(transcription))
    ensures r.kind == NOTE <==> !ContainsTodoPattern(ToLower(transcription)) && !ContainsTablePattern(ToLower(transcription))
    ensures r.kind == TODO ==> r.content == TodoContent(ExtractTodos(transcription))
    ensures r.kind == TABLE ==> r.content == TableContent(TableOf(transcription))
    ensures r.kind == NOTE ==> r.content == TextContent(transcription)
  {
    var lowerCaseText := ToLower(transcription);
    if ContainsTodoPattern(lowerCaseText) then
      ProcessedResult(TODO, TodoContent(ExtractTodos(transcription)), transcription)
    else if ContainsTablePattern(lowerCaseText) then
      ProcessedResult(TABLE, TableContent(TableOf(transcription)), transcription)
    else
      ProcessedResult(NOTE, TextContent(transcription), transcription)
  }

  /**
   * What the request to the processing service came back with: an error
   * thrown by `fetch`, or a response with its `ok` flag, its status and its
   * body as parsed by `response.json()` (`None` when parsing threw). The
   * status only feeds the text of the error that is thrown and caught, so no
   * member reads it.
   */
  datatype FetchOutcome =
    | Thrown
    | Responded(ok: bool, status: int, json: Option<ProcessedResult>)

  /** The request succeeded: `ok` was set and the body parsed. */
  predicate Succeeded(outcome: FetchOutcome) {
    outcome.Responded? && outcome.ok && outcome.json.Some?
  }

  /**
   * `processTranscription`: the parsed body when the request succeeded,
   * returned as it is; `fallbackProcessing` on any error.
   */
  function ProcessTranscription(transcription: string, outcome: FetchOutcome): (r: ProcessedResult)
    ensures Succeeded(outcome) ==> r == outcome.json.value
    ensures !Succeeded(outcome) ==> r == FallbackProcessing(transcription)
  {
    match outcome
    case Thrown => FallbackProcessing(transcription)
    case Responded(ok, status, json) =>
      if !ok then FallbackProcessing(transcription)
      else
        match json
        case None => FallbackProcessing(transcription)
        case Some(body) => body
  }
}

module AiProcessorProperties {
  import opened TextOps
  import opened Types
  import opened TodoExtraction
  import opened TableExtraction
  import opened TableProperties
  import opened TableRows
  import opened AiProcessor

  /** Every failed request, whatever the failure, gives the keyword result. */
  lemma FailureFallsBack(transcription: string, outcome: FetchOutcome)
    requires outcome.Thrown? || (outcome.Responded? && (!outcome.ok || outcome.json.None?))
    ensures ProcessTranscription(transcription, outcome) == FallbackProcessing(transcription)
    ensures ProcessTranscription(transcription, outcome).rawTranscription == transcription
    ensures ProcessTranscription(transcription, outcome).kind != UNKNOWN
  {
  }

  /**
   * The body of a successful response is not checked: it may be `UNKNOWN`
   * and may name another transcript. `UNKNOWN` can only come from there.
   */
  lemma SuccessIsUnchecked(transcription: string)
    ensures var body := ProcessedResult(UNKNOWN, TextContent(""), transcription + "!");
            var r := ProcessTranscription(transcription, Responded(true, 200, Some(body)));
            r.kind == UNKNOWN && r.rawTranscription != transcription
    ensures forall outcome :: ProcessTranscription(transcription, outcome).kind == UNKNOWN ==> Succeeded(outcome)
  {
    var body := ProcessedResult(UNKNOWN, TextContent(""), transcription + "!");
    assert |body.rawTranscription| != |transcription|;
  }

  /** An empty transcript is a note whose content is the empty text. */
  lemma EmptyTranscriptIsNote()
    ensures FallbackProcessing("") == ProcessedResult(NOTE, TextContent(""), "")
  {
    assert ToLower("") == "";
    PatternsNonEmpty();
    NothingInEmpty(TodoPatterns);
    NothingInEmpty(TablePatterns);
  }

  lemma PatternsNonEmpty()
    ensures forall k :: 0 <= k < |TodoPatterns| ==> TodoPatterns[k] != []
    ensures forall k :: 0 <= k < |TablePatterns| ==> TablePatterns[k] != []
  {
    assert TodoPatterns[0] != [] && TodoPatterns[1] != [] && TodoPatterns[2] != [];
    assert TablePatterns[0] != [] && TablePatterns[1] != [] && TablePatterns[2] != [];
  }

  lemma NothingInEmpty(patterns: seq<string>)
    requires forall k :: 0 <= k < |patterns| ==> patterns[k] != []
    ensures !IncludesAny("", patterns)
  {
    forall k, i | 0 <= k < |patterns|
      ensures !OccursAt("", patterns[k], i)
    {
    }
  }

  /** A todo pattern written in any case anywhere makes a task list, whatever else the text says. */
  lemma TodoPatternWins(a: string, p: string, b: string, k: nat)
    requires k < |TodoPatterns| && ToLower(p) == TodoPatterns[k]
    ensures FallbackProcessing(a + p + b).kind == TODO
    ensures FallbackProcessing(a + p + b).content == TodoContent(ExtractTodos(a + p + b))
  {
    var lower := ToLower(a + p + b);
    ToLowerAppend(a + p, b);
    ToLowerAppend(a, p);
    assert lower[|a|..|a| + |p|] == ToLower(p);
    assert OccursAt(lower, TodoPatterns[k], |a|);
  }

  /**
   * A one-line memo with `need to` in it and without digits or bullets (the
   * first and third built-in sample transcripts) is a task list of one
   * item: the whole trimmed memo.
   */
  lemma NeedToMemo(a: string, b: string)
    requires !IsBlank(a)
    requires var text := a + "need to" + b;
             NoneOf(text, {'\n', '\r'}) && NoDigits(text) && NoBullets(text)
    ensures var text := a + "need to" + b;
            FallbackProcessing(text) == ProcessedResult(TODO, TodoContent([TodoItem(Trim(text), false)]), text)
  {
    var text := a + "need to" + b;
    assert ToLower("need to") == TodoPatterns[6];
    TodoPatternWins(a, "need to", b, 6);
    NeedToTrimsLong(a, b);
    PlainText(text);
    OneLineMemo(text);
  }

  lemma NeedToTrimsLong(a: string, b: string)
    requires !IsBlank(a)
    ensures |Trim(a + "need to" + b)| > 7
  {
    var m := "need to";
    assert m[|m| - 1] == 'o';
    TrimAround(a, m, b);
  }

  /**
   * A one-line transcript with a table pattern, no todo pattern, no explicit
   * headers and at least two cells (the second built-in sample transcript)
   * is a table without headers and with one empty row.
   */
  lemma OneLineTableTranscript(text: string)
    requires !ContainsTodoPattern(ToLower(text)) && ContainsTablePattern(ToLower(text))
    requires NoneOf(text, {'\n'}) && !IsBlank(text)
    requires ExplicitHeaders(text) == [] && |Cells(text)| >= 2
    ensures FallbackProcessing(text) == ProcessedResult(TABLE, TableContent(TableData([], [[]])), text)
  {
    OneLineTable(text);
  }

  /**
   * A one-line transcript that opens with `columns are` and names its
   * columns with commas gets no headers at all: the phrase yields no
   * explicit headers and one line allows no inference.
   */
  lemma ColumnsAreOneLine(p: string, rest: string)
    requires ToLower(p) == HeaderPhrases[0]
    requires NoneOf(p + rest, {'\n'}) && |Cells(p + rest)| >= 2
    ensures TableOf(p + rest) == TableData([], [[]])
  {
    ColumnsAreFirst(p, rest);
    ColumnsPhraseNotBlank(p, rest);
    OneLineTable(p + rest);
  }

  lemma ColumnsPhraseNotBlank(p: string, rest: string)
    requires ToLower(p) == HeaderPhrases[0]
    ensures !IsBlank(p + rest)
  {
    assert LowerChar(p[0]) == 'c';
    assert p[0] == 'c' || p[0] == 'C';
    assert !IsSpace(p[0]);
    assert (p + rest)[0] == p[0];
  }
}
