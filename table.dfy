/*
 * Table extraction (`extractTable` in src/utils/aiProcessor.ts): headers
 * from a header phrase, from the first line, or generic ones; rows from
 * delimited lines, or from the words of sentences when no line qualifies.
 */
module TableExtraction {
  import opened TextOps
  import opened ListOps
  import opened Types

  /**
   * The alternatives of `/columns are|headers include|fields are|columns include(.*)/i`,
   * in the order the regex tries them. The group `(.*)` belongs to the last one only.
   */
  const HeaderPhrases: seq<string> := ["columns are", "headers include", "fields are", "columns include"]

  /** The index of the one alternative that carries the capture group. */
  const CapturingPhrase: nat := 3

  /** The characters of `/\t|,|;|\|/`, which separate cells. */
  const Delimiters: set<char> := {'\t', ',', ';', '|'}

  /** What an explicit header list is split on (`/,|;/`). */
  const HeaderSeparators: set<char> := {',', ';'}

  /** The headers used when the first line does not look like a header line. */
  const GenericHeaders: seq<string> := ["Column 1", "Column 2", "Column 3"]

  const MinHeaderCandidates: nat := 2
  const MaxHeaderCandidates: nat := 10

  // ---------------------------------------------------------------- the header regex

  /** Alternative `k` of the header regex matches at position `i` (case-insensitively). */
  predicate PhraseAt(text: string, i: nat, k: nat)
    requires k < |HeaderPhrases|
  {
    i + |HeaderPhrases[k]| <= |text| && ToLower(text[i..i + |HeaderPhrases[k]|]) == HeaderPhrases[k]
  }

  /** The first alternative, from `k` on, that matches at position `i`. */
  function AlternativeAt(text: string, i: nat, k: nat): (r: Option<nat>)
    requires k <= |HeaderPhrases|
    ensures r.Some? ==> k <= r.value < |HeaderPhrases| && PhraseAt(text, i, r.value)
                        && forall k' :: k <= k' < r.value ==> !PhraseAt(text, i, k')
    ensures r.None? ==> forall k' :: k <= k' < |HeaderPhrases| ==> !PhraseAt(text, i, k')
    decreases |HeaderPhrases| - k
  {
    if k == |HeaderPhrases| then None
    else if PhraseAt(text, i, k) then Some(k)
    else AlternativeAt(text, i, k + 1)
  }

  /** Where the header regex matched and which alternative matched there. */
  datatype PhraseMatch = PhraseMatch(pos: nat, alternative: nat)

  /** No alternative matches anywhere in positions `from .. to - 1`. */
  predicate NoPhraseBetween(text: string, from: nat, to: nat) {
    forall j, k :: from <= j < to && 0 <= k < |HeaderPhrases| ==> !PhraseAt(text, j, k)
  }

  /** `text.match(...)` without the `g` flag: the leftmost match, from position `from` on. */
  function FindHeaderPhrase(text: string, from: nat): (r: Option<PhraseMatch>)
    ensures r.Some? ==>
              from <= r.value.pos && r.value.alternative < |HeaderPhrases|
              && PhraseAt(text, r.value.pos, r.value.alternative)
              && (forall k :: 0 <= k < r.value.alternative ==> !PhraseAt(text, r.value.pos, k))
              && NoPhraseBetween(text, from, r.value.pos)
    ensures r.None? ==> NoPhraseBetween(text, from, |text| + 1)
    decreases |text| + 1 - from
  {
    if from > |text| then None
    else
      match AlternativeAt(text, from, 0)
      case Some(k) => Some(PhraseMatch(from, k))
      case None =>
        var r := FindHeaderPhrase(text, from + 1);
        NoPhraseExtend(text, from, if r.Some? then r.value.pos else |text| + 1);
        r
  }

  /** A position where no alternative matches extends a match-free stretch to its left. */
  lemma NoPhraseExtend(text: string, from: nat, to: nat)
    requires forall k :: 0 <= k < |HeaderPhrases| ==> !PhraseAt(text, from, k)
    requires NoPhraseBetween(text, from + 1, to)
    ensures NoPhraseBetween(text, from, to)
  {
  }

  /** `headerMatch[1]`: the rest of the line after a leftmost `columns include`, else undefined. */
  function HeaderCapture(text: string): Option<string>
  {
    match FindHeaderPhrase(text, 0)
    case Some(m) =>
      if m.alternative == CapturingPhrase
      then Some(RestOfLine(text[m.pos + |HeaderPhrases[CapturingPhrase]|..]))
      else None
    case None => None
  }

  /** `h.replace(/and/g, '').trim()`: every lower-case `and` deleted, then trimmed. */
  function HeaderName(piece: string): (name: string)
    ensures IsTrimmed(name)
  {
    Trim(RemoveAll(piece, "and"))
  }

  /** The headers named after the phrase, or none. */
  function ExplicitHeaders(text: string): (headers: seq<string>)
    ensures forall k :: 0 <= k < |headers| ==> headers[k] != [] && IsTrimmed(headers[k])
  {
    match HeaderCapture(text)
    case Some(captured) =>
      if captured != [] then
        var names := Map(Split(captured, HeaderSeparators), HeaderName);
        DropEmpty(names)
      else []
    case None => []
  }

  // ---------------------------------------------------------------- lines and cells

  /** `text.split('\n').filter(line => line.trim().length > 0)` */
  function Lines(text: string): (lines: seq<string>)
    ensures forall k :: 0 <= k < |lines| ==> !IsBlank(lines[k]) && NoneOf(lines[k], {'\n'})
  {
    NonBlank(Split(text, {'\n'}))
  }

  /** The trimmed, non-empty pieces of a line split on tab, comma, semicolon or bar. */
  function Cells(line: string): (cells: seq<string>)
    ensures forall k :: 0 <= k < |cells| ==> cells[k] != [] && IsTrimmed(cells[k]) && NoneOf(cells[k], Delimiters)
  {
    var pieces := Split(line, Delimiters);
    var trimmed := TrimAll(pieces);
    assert forall k :: 0 <= k < |trimmed| ==> NoneOf(trimmed[k], Delimiters) by {
      forall k | 0 <= k < |trimmed|
        ensures NoneOf(trimmed[k], Delimiters)
      {
        TrimKeepsNoneOf(pieces[k], Delimiters);
      }
    }
    DropEmpty(trimmed)
  }

  // ---------------------------------------------------------------- headers

  /** The first line looks like a header line: it has 2 to 10 cells. */
  predicate LooksLikeHeader(cells: seq<string>) {
    MinHeaderCandidates <= |cells| <= MaxHeaderCandidates
  }

  /** Header inference runs: no explicit headers and more than one line. */
  predicate InfersHeaders(text: string) {
    ExplicitHeaders(text) == [] && |Lines(text)| > 1
  }

  /** The headers `extractTable` settles on. */
  function Headers(text: string): seq<string>
  {
    if InfersHeaders(text) then
      var candidates := Cells(Lines(text)[0]);
      if LooksLikeHeader(candidates) then candidates else GenericHeaders
    else ExplicitHeaders(text)
  }

  /** The lines left for data rows (`lines.shift()` drops an inferred header line). */
  function DataLines(text: string): seq<string>
  {
    var lines := Lines(text);
    if InfersHeaders(text) && LooksLikeHeader(Cells(lines[0])) then lines[1..] else lines
  }

  // ---------------------------------------------------------------- rows

  /** `n` empty cells. */
  function Blanks(n: nat): (r: seq<string>)
    ensures |r| == n && forall k :: 0 <= k < n ==> r[k] == ""
  {
    seq(n, _ => "")
  }

  /** Pad with `""` up to `n` cells, then keep the first `n`. */
  function Fit(cells: seq<string>, n: nat): (row: seq<string>)
    ensures |row| == n
    ensures forall k :: 0 <= k < n ==> row[k] == if k < |cells| then cells[k] else ""
  {
    if |cells| >= n then cells[..n] else cells + Blanks(n - |cells|)
  }

  function FitTo(n: nat): seq<string> -> seq<string>
  {
    cells => Fit(cells, n)
  }

  /** A delimited line gives a row when it has at least two cells. */
  predicate IsDataRow(cells: seq<string>) {
    |cells| >= 2
  }

  /** The rows of the delimited lines: one per line with at least two cells, fitted to `n`. */
  function DelimiterRows(lines: seq<string>, n: nat): seq<seq<string>>
  {
    Map(Filter(Map(lines, Cells), IsDataRow), FitTo(n))
  }

  /** `sentence.split(' ').filter(w => w.trim().length > 0)` */
  function Words(sentence: string): (words: seq<string>)
    ensures forall k :: 0 <= k < |words| ==> !IsBlank(words[k]) && NoneOf(words[k], {' '})
    ensures NoneOf(sentence, {' '}) && !IsBlank(sentence) ==> words == [sentence]
  {
    if NoneOf(sentence, {' '}) && !IsBlank(sentence) then
      SplitNoSeparator(sentence, {' '});
      NonBlankSingle(sentence);
      NonBlank(Split(sentence, {' '}))
    else
      NonBlank(Split(sentence, {' '}))
  }

  function HasWords(n: nat): seq<string> -> bool
  {
    words => |words| >= n
  }

  /** The fallback rows: the first `n` words of each sentence that has at least `n`. */
  function SentenceRows(sentences: seq<string>, n: nat): seq<seq<string>>
  {
    Map(Filter(Map(sentences, Words), HasWords(n)), FitTo(n))
  }

  /** What `extractTable` returns. Every row has exactly as many cells as there are headers. */
  function TableOf(text: string): (table: TableData)
    ensures forall k :: 0 <= k < |table.rows| ==> |table.rows[k]| == |table.headers|
  {
    var headers := Headers(text);
    var rows := DelimiterRows(DataLines(text), |headers|);
    TableData(headers, if rows == [] then SentenceRows(Sentences(text), |headers|) else rows)
  }

  // ---------------------------------------------------------------- the imperative form

  /** One step of the line loop: a line with at least two cells adds its fitted row. */
  lemma DelimiterRowsStep(lines: seq<string>, i: nat, n: nat)
    requires i < |lines|
    ensures DelimiterRows(lines[..i + 1], n)
         == DelimiterRows(lines[..i], n) + if |Cells(lines[i])| >= 2 then [Fit(Cells(lines[i]), n)] else []
  {
    assert lines[..i + 1] == lines[..i] + [lines[i]];
    MapPush(lines[..i], lines[i], Cells);
    var cells := Map(lines[..i], Cells);
    FilterPush(cells, Cells(lines[i]), IsDataRow);
    var kept := Filter(cells, IsDataRow);
    if IsDataRow(Cells(lines[i])) {
      MapPush(kept, Cells(lines[i]), FitTo(n));
    } else {
      assert kept + [] == kept;
    }
  }

  /** One step of the sentence loop: a sentence with at least `n` words adds its first `n` words. */
  lemma SentenceRowsStep(sentences: seq<string>, j: nat, n: nat)
    requires j < |sentences|
    ensures SentenceRows(sentences[..j + 1], n)
         == SentenceRows(sentences[..j], n)
            + if |Words(sentences[j])| >= n then [Words(sentences[j])[..n]] else []
  {
    assert sentences[..j + 1] == sentences[..j] + [sentences[j]];
    MapPush(sentences[..j], sentences[j], Words);
    var words := Map(sentences[..j], Words);
    FilterPush(words, Words(sentences[j]), HasWords(n));
    var kept := Filter(words, HasWords(n));
    if HasWords(n)(Words(sentences[j])) {
      MapPush(kept, Words(sentences[j]), FitTo(n));
    } else {
      assert kept + [] == kept;
    }
  }

  /** The padding loop: push `""` until there are `n` cells, then `slice(0, n)`. */
  method PadAndSlice(cells: seq<string>, n: nat) returns (row: seq<string>)
    ensures row == Fit(cells, n)
  {
    var padded := cells;
    while |padded| < n
      invariant |cells| <= |padded|
      invariant padded == cells + Blanks(|padded| - |cells|)
      decreases n - |padded|
    {
      padded := padded + [""];
    }
    row := padded[..n];
  }

  /** `Array(n).fill('')` filled with the first `n` words. */
  method LeadingWords(words: seq<string>, n: nat) returns (row: seq<string>)
    requires |words| >= n
    ensures row == words[..n]
  {
    var cells := new string[n](_ => "");
    for k := 0 to n
      invariant cells[..k] == words[..k]
    {
      cells[k] := words[k];
    }
    assert cells[..] == cells[..n];
    row := cells[..];
  }

  /** The `lines.forEach`: one fitted row per line with at least two cells. */
  method CollectDelimiterRows(lines: seq<string>, n: nat) returns (rows: seq<seq<string>>)
    ensures rows == DelimiterRows(lines, n)
  {
    rows := [];
    for i := 0 to |lines|
      invariant rows == DelimiterRows(lines[..i], n)
    {
      DelimiterRowsStep(lines, i, n);
      var cells := Cells(lines[i]);
      if |cells| >= 2 {
        var row := PadAndSlice(cells, n);
        rows := rows + [row];
      }
    }
    assert lines[..|lines|] == lines;
  }

  /** The `sentences.forEach`: the first `n` words of every sentence that has at least `n`. */
  method CollectSentenceRows(sentences: seq<string>, n: nat) returns (rows: seq<seq<string>>)
    ensures rows == SentenceRows(sentences, n)
  {
    rows := [];
    for j := 0 to |sentences|
      invariant rows == SentenceRows(sentences[..j], n)
    {
      SentenceRowsStep(sentences, j, n);
      var words := Words(sentences[j]);
      if |words| >= n {
        var row := LeadingWords(words, n);
        rows := rows + [row];
      }
    }
    assert sentences[..|sentences|] == sentences;
  }

  /**
   * `extractTable`: the header search and header inference, then the line
   * loop, then the sentence loop when no line gave a row.
   */
  method ExtractTable(text: string) returns (table: TableData)
    ensures table == TableOf(text)
  {
    var lines := Lines(text);
    var headers: seq<string> := ExplicitHeaders(text);
    var rows: seq<seq<string>>;

    if |headers| == 0 && |lines| > 1 {
      var candidates := Cells(lines[0]);
      if |candidates| >= MinHeaderCandidates && |candidates| <= MaxHeaderCandidates {
        headers := candidates;
        lines := lines[1..];
      } else {
        headers := GenericHeaders;
      }
    }
    assert headers == Headers(text) && lines == DataLines(text);

    rows := CollectDelimiterRows(lines, |headers|);
    if |rows| == 0 {
      var sentences := Sentences(text);
      rows := CollectSentenceRows(sentences, |headers|);
    }
    table := TableData(headers, rows);
  }
}

module TableProperties {
  import opened TextOps
  import opened ListOps
  import opened Types
  import opened TableExtraction

  // ---------------------------------------------------------------- the header regex

  /** Where `columns include` matches, no earlier alternative matches at the same position. */
  lemma CapturingPhraseExcludesOthers(text: string, i: nat)
    requires PhraseAt(text, i, CapturingPhrase)
    ensures forall k :: 0 <= k < CapturingPhrase ==> !PhraseAt(text, i, k)
  {
    var window := ToLower(text[i..i + 15]);
    assert window[0] == LowerChar(text[i]) == 'c';
    assert window[8] == LowerChar(text[i + 8]) == 'i';
    assert ToLower(text[i..i + 11])[8] == LowerChar(text[i + 8]);
    assert ToLower(text[i..i + |HeaderPhrases[1]|])[0] == LowerChar(text[i]);
    assert ToLower(text[i..i + |HeaderPhrases[2]|])[0] == LowerChar(text[i]);
  }

  /** The leftmost match, when it is at `i` with alternative `k`, is what the search finds. */
  lemma LeftmostMatch(text: string, i: nat, k: nat)
    requires k < |HeaderPhrases| && PhraseAt(text, i, k)
    requires NoPhraseBetween(text, 0, i)
    requires forall k' :: 0 <= k' < k ==> !PhraseAt(text, i, k')
    ensures FindHeaderPhrase(text, 0) == Some(PhraseMatch(i, k))
  {
  }

  /**
   * Only a leftmost `columns include` yields explicit headers: they come
   * from the rest of its line, split on `,` or `;`, with `and` deleted,
   * trimmed and with blanks dropped.
   */
  lemma ColumnsIncludeHeaders(text: string, i: nat)
    requires PhraseAt(text, i, CapturingPhrase) && NoPhraseBetween(text, 0, i)
    ensures HeaderCapture(text) == Some(RestOfLine(text[i + 15..]))
    ensures ExplicitHeaders(text)
         == if RestOfLine(text[i + 15..]) == [] then []
            else DropEmpty(Map(Split(RestOfLine(text[i + 15..]), HeaderSeparators), HeaderName))
  {
    CapturingPhraseExcludesOthers(text, i);
    LeftmostMatch(text, i, CapturingPhrase);
  }

  /** A leftmost `columns are`, `headers include` or `fields are` never yields explicit headers. */
  lemma OtherPhrasesGiveNoHeaders(text: string, i: nat, k: nat)
    requires k < CapturingPhrase && PhraseAt(text, i, k) && NoPhraseBetween(text, 0, i)
    ensures HeaderCapture(text) == None
    ensures ExplicitHeaders(text) == []
  {
    var r := FindHeaderPhrase(text, 0);
    assert r.Some? && r.value.pos == i && r.value.alternative <= k;
  }

  /** Without any header phrase there are no explicit headers either. */
  lemma NoPhraseNoHeaders(text: string)
    requires NoPhraseBetween(text, 0, |text| + 1)
    ensures ExplicitHeaders(text) == []
  {
    assert FindHeaderPhrase(text, 0).None?;
  }

  /** A transcript that opens with `columns are` (in any case) has no explicit headers. */
  lemma ColumnsAreFirst(p: string, rest: string)
    requires ToLower(p) == HeaderPhrases[0]
    ensures ExplicitHeaders(p + rest) == []
  {
    var text := p + rest;
    assert text[0..|p|] == p;
    assert PhraseAt(text, 0, 0);
    OtherPhrasesGiveNoHeaders(text, 0, 0);
  }

  /** Deleting `and` works inside words too: a header named `Brand` comes out as `Br`. */
  lemma AndDeletedInsideWords()
    ensures HeaderName("Brand") == "Br"
  {
    assert StartsWith("and", "and");
    assert RemoveAll("and", "and") == [];
    assert "Brand"[1..] == "rand" && "rand"[1..] == "and";
    assert RemoveAll("Brand", "and") == "Br";
    TrimOfTrimmed("Br");
  }
}

module TableRows {
  import opened TextOps
  import opened ListOps
  import opened Types
  import opened TableExtraction

  // ---------------------------------------------------------------- headers

  /**
   * Explicit headers win, and then the phrase line stays among the data
   * lines; without them and with more than one line, a first line of 2 to 10
   * cells becomes the headers and leaves the data, and any other first line
   * gives the generic headers.
   */
  lemma HeaderRules(text: string)
    ensures ExplicitHeaders(text) != [] ==>
              Headers(text) == ExplicitHeaders(text) && DataLines(text) == Lines(text)
    ensures ExplicitHeaders(text) == [] && |Lines(text)| > 1 && LooksLikeHeader(Cells(Lines(text)[0])) ==>
              Headers(text) == Cells(Lines(text)[0]) && DataLines(text) == Lines(text)[1..]
    ensures ExplicitHeaders(text) == [] && |Lines(text)| > 1 && !LooksLikeHeader(Cells(Lines(text)[0])) ==>
              Headers(text) == ["Column 1", "Column 2", "Column 3"] && DataLines(text) == Lines(text)
    ensures ExplicitHeaders(text) == [] && |Lines(text)| <= 1 ==>
              Headers(text) == [] && DataLines(text) == Lines(text)
  {
  }

  /** With no headers every delimiter row is empty. */
  lemma NoHeadersEmptyRows(text: string)
    requires ExplicitHeaders(text) == [] && |Lines(text)| <= 1
    ensures forall k :: 0 <= k < |DelimiterRows(DataLines(text), |Headers(text)|)| ==>
              DelimiterRows(DataLines(text), |Headers(text)|)[k] == []
  {
    var rows := DelimiterRows(DataLines(text), |Headers(text)|);
    assert Headers(text) == [];
    forall k | 0 <= k < |rows|
      ensures rows[k] == []
    {
      assert |rows[k]| == 0;
    }
  }

  // ---------------------------------------------------------------- delimiter rows

  /** `row` is the fitted row of one of the lines, one that has at least two cells. */
  predicate IsDelimiterRowOf(lines: seq<string>, n: nat, row: seq<string>) {
    exists j :: 0 <= j < |lines| && |Cells(lines[j])| >= 2 && row == Fit(Cells(lines[j]), n)
  }

  /** Every delimiter row is a line with at least two cells, fitted to `n` cells. */
  lemma DelimiterRowsSound(lines: seq<string>, n: nat)
    ensures forall k :: 0 <= k < |DelimiterRows(lines, n)| ==> IsDelimiterRowOf(lines, n, DelimiterRows(lines, n)[k])
  {
    var cells := Map(lines, Cells);
    var kept := Filter(cells, IsDataRow);
    var rows := DelimiterRows(lines, n);
    FilterSound(cells, IsDataRow);
    forall k | 0 <= k < |rows|
      ensures IsDelimiterRowOf(lines, n, rows[k])
    {
      var j :| 0 <= j < |cells| && cells[j] == kept[k];
      assert IsDataRow(kept[k]);
      assert rows[k] == FitTo(n)(kept[k]) == Fit(Cells(lines[j]), n);
    }
  }

  /** Every line with at least two cells gives a row. */
  lemma DelimiterRowsComplete(lines: seq<string>, n: nat, j: nat)
    requires j < |lines| && |Cells(lines[j])| >= 2
    ensures Fit(Cells(lines[j]), n) in DelimiterRows(lines, n)
  {
    var cells := Map(lines, Cells);
    FilterComplete(cells, IsDataRow, j);
    var kept := Filter(cells, IsDataRow);
    var k :| 0 <= k < |kept| && kept[k] == Cells(lines[j]);
    assert DelimiterRows(lines, n)[k] == FitTo(n)(kept[k]);
  }

  /** Rows keep line order: the rows of a split list of lines are the rows of its parts. */
  lemma DelimiterRowsAppend(xs: seq<string>, ys: seq<string>, n: nat)
    ensures DelimiterRows(xs + ys, n) == DelimiterRows(xs, n) + DelimiterRows(ys, n)
  {
    MapAppend(xs, ys, Cells);
    FilterAppend(Map(xs, Cells), Map(ys, Cells), IsDataRow);
    MapAppend(Filter(Map(xs, Cells), IsDataRow), Filter(Map(ys, Cells), IsDataRow), FitTo(n));
  }

  // ---------------------------------------------------------------- sentence rows

  /** `row` is the first `n` words of one of the sentences, one that has at least `n` words. */
  predicate IsSentenceRowOf(sentences: seq<string>, n: nat, row: seq<string>) {
    exists j :: 0 <= j < |sentences| && |Words(sentences[j])| >= n && row == Words(sentences[j])[..n]
  }

  /** Every fallback row is the first `n` words of a sentence that has at least `n` words. */
  lemma SentenceRowsSound(sentences: seq<string>, n: nat)
    ensures forall k :: 0 <= k < |SentenceRows(sentences, n)| ==>
              IsSentenceRowOf(sentences, n, SentenceRows(sentences, n)[k])
  {
    var words := Map(sentences, Words);
    var kept := Filter(words, HasWords(n));
    var rows := SentenceRows(sentences, n);
    FilterSound(words, HasWords(n));
    forall k | 0 <= k < |rows|
      ensures IsSentenceRowOf(sentences, n, rows[k])
    {
      var j :| 0 <= j < |words| && words[j] == kept[k];
      assert HasWords(n)(kept[k]);
      assert rows[k] == FitTo(n)(kept[k]) == Fit(Words(sentences[j]), n);
    }
  }

  /** With no headers, every sentence gives one empty row. */
  lemma SentenceRowsWithoutHeaders(sentences: seq<string>)
    ensures |SentenceRows(sentences, 0)| == |sentences|
    ensures forall k :: 0 <= k < |sentences| ==> SentenceRows(sentences, 0)[k] == []
  {
    var words := Map(sentences, Words);
    FilterAll(words, HasWords(0));
  }

  // ---------------------------------------------------------------- whole tables

  /**
   * A one-line transcript without explicit headers whose line has at least
   * two cells gives no headers and a single empty row.
   */
  lemma OneLineTable(text: string)
    requires NoneOf(text, {'\n'}) && !IsBlank(text)
    requires ExplicitHeaders(text) == [] && |Cells(text)| >= 2
    ensures TableOf(text) == TableData([], [[]])
  {
    OneLineLines(text);
    assert Headers(text) == [] && DataLines(text) == [text];
    OneLineRows(text, 0);
  }

  /** A text without line breaks is its own single line, unless it is blank. */
  lemma OneLineLines(text: string)
    requires NoneOf(text, {'\n'}) && !IsBlank(text)
    ensures Lines(text) == [text]
  {
    SplitNoSeparator(text, {'\n'});
    NonBlankSingle(text);
  }

  /** A single line with at least two cells gives a single row. */
  lemma OneLineRows(line: string, n: nat)
    requires |Cells(line)| >= 2
    ensures DelimiterRows([line], n) == [Fit(Cells(line), n)]
  {
    assert Map([line], Cells) == [Cells(line)];
    FilterSingle(Cells(line), IsDataRow);
    assert Map([Cells(line)], FitTo(n)) == [Fit(Cells(line), n)];
  }
}
