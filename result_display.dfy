/*
 * The data operations of src/components/ResultDisplay.tsx: the CSV text that
 * `downloadAsCSV` builds, the todo toggle `handleTodoToggle`, and the text
 * that the "Copy List" button copies.
 */
module ResultDisplay {
  import opened TextOps
  import opened ListOps
  import opened Types

  // ---------------------------------------------------------------- CSV cells

  /** The cell contains a comma or a double quote and so is wrapped in quotes. */
  predicate NeedsQuoting(cell: string) {
    ',' in cell || '"' in cell
  }

  /** How many double quotes `s` holds. */
  function QuoteCount(s: string): (n: nat)
    ensures n <= |s|
    ensures n == 0 <==> '"' !in s
  {
    if s == [] then 0
    else
      assert s == [s[0]] + s[1..];
      (if s[0] == '"' then 1 else 0) + QuoteCount(s[1..])
  }

  /** `cell.replace(/"/g, '""')`: every double quote doubled. */
  function DoubleQuotes(s: string): (r: string)
    ensures '"' !in s ==> r == s
    ensures |r| == |s| + QuoteCount(s)
    ensures forall i :: 0 <= i < |r| ==> r[i] == '"' || r[i] in s
  {
    if s == [] then ""
    else
      var rest := DoubleQuotes(s[1..]);
      assert forall i :: 0 <= i < |rest| ==> rest[i] == '"' || rest[i] in s by {
        assert forall c :: c in s[1..] ==> c in s;
      }
      if s[0] == '"' then "\"\"" + rest
      else
        assert s == [s[0]] + s[1..];
        [s[0]] + rest
  }

  /** Doubling works character by character, in order. */
  lemma {:induction false} DoubleQuotesAppend(a: string, b: string)
    ensures DoubleQuotes(a + b) == DoubleQuotes(a) + DoubleQuotes(b)
    decreases |a|
  {
    if a == [] {
      assert a + b == b;
    } else {
      var s := a + b;
      DoubleQuotesAppend(a[1..], b);
      assert s[1..] == a[1..] + b;
      assert s[0] == a[0];
      DoubleQuotesFront(s);
      DoubleQuotesFront(a);
      ConcatAssoc(DoubleQuotes([a[0]]), DoubleQuotes(a[1..]), DoubleQuotes(b));
    }
  }

  lemma DoubleQuotesFront(s: string)
    requires s != []
    ensures DoubleQuotes(s) == DoubleQuotes([s[0]]) + DoubleQuotes(s[1..])
  {
    DoubleQuotesChar(s[0]);
  }

  /** A quote becomes two quotes, any other character stays. */
  lemma DoubleQuotesChar(c: char)
    ensures DoubleQuotes([c]) == if c == '"' then "\"\"" else [c]
  {
    assert [c][1..] == [];
  }

  /** Reading a field back: every `""` stands for one `"`. */
  function CollapseQuotes(s: string): string
    decreases |s|
  {
    if s == [] then ""
    else if |s| >= 2 && s[0] == '"' && s[1] == '"' then "\"" + CollapseQuotes(s[2..])
    else [s[0]] + CollapseQuotes(s[1..])
  }

  /** Collapsing the doubled quotes gives the original text back. */
  lemma {:induction false} CollapseDoubled(s: string)
    ensures CollapseQuotes(DoubleQuotes(s)) == s
    decreases |s|
  {
    if s != [] {
      CollapseDoubled(s[1..]);
      var rest := DoubleQuotes(s[1..]);
      if s[0] == '"' {
        assert ("\"\"" + rest)[2..] == rest;
      } else {
        assert ([s[0]] + rest)[1..] == rest;
      }
      assert [s[0]] + s[1..] == s;
    }
  }

  /**
   * The escaping of one row cell: a plain cell stays as it is; a cell with a
   * comma or a quote is wrapped in quotes, and stripping them and collapsing
   * the doubled quotes recovers it.
   */
  function EscapeCell(cell: string): (r: string)
    ensures !NeedsQuoting(cell) ==> r == cell
    ensures NeedsQuoting(cell) ==> |r| >= 2 && r[0] == '"' && r[|r| - 1] == '"'
    ensures NeedsQuoting(cell) ==> CollapseQuotes(r[1..|r| - 1]) == cell
    ensures forall i :: 0 <= i < |r| ==> r[i] == '"' || r[i] in cell
  {
    if NeedsQuoting(cell) then
      var inner := DoubleQuotes(cell);
      CollapseDoubled(cell);
      assert ("\"" + inner + "\"")[1..|inner| + 1] == inner;
      "\"" + inner + "\""
    else cell
  }

  /** How a CSV reader takes a field: unwrap a quoted field, keep any other. */
  function UnescapeField(field: string): string {
    if |field| >= 2 && field[0] == '"' && field[|field| - 1] == '"' then
      CollapseQuotes(field[1..|field| - 1])
    else field
  }

  /** Every cell, plain or quoted, is read back as it was. */
  lemma EscapeRoundTrip(cell: string)
    ensures UnescapeField(EscapeCell(cell)) == cell
  {
    if !NeedsQuoting(cell) && |cell| >= 2 {
      assert cell[0] in cell;
    }
  }

  // ---------------------------------------------------------------- CSV text

  /** The line of one row: its escaped cells joined with commas. */
  function Record(row: seq<string>): string {
    Join(Map(row, EscapeCell), ",")
  }

  /** The header line: the headers joined with commas, never escaped. */
  function HeaderRecord(headers: seq<string>): string {
    Join(headers, ",")
  }

  /** The row lines, each ended by a line feed, in order. */
  function RowLines(rows: seq<seq<string>>): string {
    if rows == [] then "" else Record(rows[0]) + "\n" + RowLines(rows[1..])
  }

  /** The CSV text of a table. */
  function CsvText(t: TableData): (r: string)
    ensures |r| > 0 && r[|r| - 1] == '\n'
    ensures |r| > |HeaderRecord(t.headers)| && r[..|HeaderRecord(t.headers)|] == HeaderRecord(t.headers)
    ensures r[|HeaderRecord(t.headers)|] == '\n'
    ensures t.rows == [] ==> r == HeaderRecord(t.headers) + "\n"
  {
    var h := HeaderRecord(t.headers) + "\n";
    var body := RowLines(t.rows);
    assert (h + body)[..|h|] == h;
    if t.rows == [] then
      assert h + body == h;
      h + body
    else
      RowLinesEnd(t.rows);
      h + body
  }

  /** Non-empty row text ends with a line feed. */
  lemma {:induction false} RowLinesEnd(rows: seq<seq<string>>)
    requires rows != []
    ensures |RowLines(rows)| > 0 && RowLines(rows)[|RowLines(rows)| - 1] == '\n'
  {
    if rows[1..] != [] {
      RowLinesEnd(rows[1..]);
    }
  }

  /** One more row appends its line. */
  lemma {:induction false} RowLinesPush(rows: seq<seq<string>>, row: seq<string>)
    ensures RowLines(rows + [row]) == RowLines(rows) + Record(row) + "\n"
  {
    if rows == [] {
      assert [] + [row] == [row];
    } else {
      RowLinesPush(rows[1..], row);
      assert (rows + [row])[1..] == rows[1..] + [row];
    }
  }

  /**
   * `downloadAsCSV` up to the download: the header line, then the line of
   * every row, added one at a time.
   */
  method BuildCsvContent(tableData: TableData) returns (csvContent: string)
    ensures csvContent == CsvText(tableData)
  {
    var headers := tableData.headers;
    var rows := tableData.rows;
    csvContent := Join(headers, ",") + "\n";
    for i := 0 to |rows|
      invariant csvContent == HeaderRecord(headers) + "\n" + RowLines(rows[..i])
    {
      var escapedRow := Map(rows[i], EscapeCell);
      RowLinesPush(rows[..i], rows[i]);
      assert rows[..i + 1] == rows[..i] + [rows[i]];
      csvContent := csvContent + Join(escapedRow, ",") + "\n";
    }
    assert rows[..|rows|] == rows;
  }

  // ---------------------------------------------------------------- reading CSV back

  /** No line feed in a text. */
  predicate OneLine(s: string) {
    NoneOf(s, {'\n'})
  }

  /** A table none of whose headers and cells holds a line feed. */
  predicate NoLineBreaks(t: TableData) {
    (forall k :: 0 <= k < |t.headers| ==> OneLine(t.headers[k])) &&
    (forall r, k :: 0 <= r < |t.rows| && 0 <= k < |t.rows[r]| ==> OneLine(t.rows[r][k]))
  }

  /** Joining pieces that all miss some characters, with a separator that misses them too. */
  lemma {:induction false} JoinNoneOf(xs: seq<string>, sep: string, cs: set<char>)
    requires NoneOf(sep, cs)
    requires forall k :: 0 <= k < |xs| ==> NoneOf(xs[k], cs)
    ensures NoneOf(Join(xs, sep), cs)
  {
    if |xs| > 1 {
      JoinNoneOf(xs[1..], sep, cs);
    }
  }

  /** The line of a row with single-line cells is a single line. */
  lemma RecordOneLine(row: seq<string>)
    requires forall k :: 0 <= k < |row| ==> OneLine(row[k])
    ensures OneLine(Record(row))
  {
    var escaped := Map(row, EscapeCell);
    forall k | 0 <= k < |escaped|
      ensures OneLine(escaped[k])
    {
      assert escaped[k] == EscapeCell(row[k]);
    }
    JoinNoneOf(escaped, ",", {'\n'});
  }

  /** Splitting the row text at line feeds gives one line per row and a final empty piece. */
  lemma {:induction false} RowLinesSplit(rows: seq<seq<string>>)
    requires forall r, k :: 0 <= r < |rows| && 0 <= k < |rows[r]| ==> OneLine(rows[r][k])
    ensures Split(RowLines(rows), {'\n'}) == Map(rows, Record) + [""]
  {
    if rows != [] {
      var head, tail := Record(rows[0]), RowLines(rows[1..]);
      RowLinesSplit(rows[1..]);
      RecordOneLine(rows[0]);
      SplitPrefix(head, '\n', tail, {'\n'});
      assert RowLines(rows) == head + ['\n'] + tail;
      assert Map(rows, Record) == [head] + Map(rows[1..], Record);
    }
  }

  /**
   * A table without line breaks in its text has as many CSV lines as rows
   * plus one: the header line first, then each row's line, in order.
   */
  lemma CsvLines(t: TableData)
    requires NoLineBreaks(t)
    ensures Split(CsvText(t), {'\n'}) == [HeaderRecord(t.headers)] + Map(t.rows, Record) + [""]
  {
    JoinNoneOf(t.headers, ",", {'\n'});
    RowLinesSplit(t.rows);
    SplitPrefix(HeaderRecord(t.headers), '\n', RowLines(t.rows), {'\n'});
    assert CsvText(t) == HeaderRecord(t.headers) + ['\n'] + RowLines(t.rows);
  }

  /** A row of plain cells splits at commas back into its cells. */
  lemma PlainRecordSplit(row: seq<string>)
    requires row != []
    requires forall k :: 0 <= k < |row| ==> !NeedsQuoting(row[k])
    ensures Split(Record(row), {','}) == row
  {
    var escaped := Map(row, EscapeCell);
    assert escaped == row;
    SplitJoin(row, ',');
  }

  /** Header fields go out verbatim, even when they hold a comma, which then reads as two fields. */
  lemma HeadersVerbatim(a: string, b: string)
    requires a != [] && b != [] && OneLine(a) && OneLine(b)
    requires NoneOf(a, {','}) && NoneOf(b, {','})
    ensures var t := TableData([a + "," + b], []);
            CsvText(t) == a + "," + b + "\n" && Split(HeaderRecord(t.headers), {','}) == [a, b]
  {
    SplitJoin([a, b], ',');
  }

  // ---------------------------------------------------------------- todo toggle

  /** The todos after the item at `index` was ticked or unticked. */
  function Toggled(todos: seq<TodoItem>, index: nat): (r: seq<TodoItem>)
    requires index < |todos|
    ensures |r| == |todos|
    ensures r[index].text == todos[index].text && r[index].completed == !todos[index].completed
    ensures forall k :: 0 <= k < |todos| && k != index ==> r[k] == todos[k]
  {
    todos[index := TodoItem(todos[index].text, !todos[index].completed)]
  }

  /** Toggling the same item twice restores the list. */
  lemma ToggleTwice(todos: seq<TodoItem>, index: nat)
    requires index < |todos|
    ensures Toggled(Toggled(todos, index), index) == todos
  {
  }

  /** Toggles of two items do not depend on their order. */
  lemma ToggleCommutes(todos: seq<TodoItem>, i: nat, j: nat)
    requires i < |todos| && j < |todos|
    ensures Toggled(Toggled(todos, i), j) == Toggled(Toggled(todos, j), i)
  {
  }

  /** A todo item as the page holds it: an object whose flag is flipped in place. */
  class TodoEntry {
    var text: string
    var completed: bool

    constructor (text: string, completed: bool)
      ensures this.text == text && this.completed == completed
    {
      this.text := text;
      this.completed := completed;
    }
  }

  /** The page's `todos` state: an array of item objects. */
  class TodoPanel {
    var todos: seq<TodoEntry>

    /** Every item object appears once. */
    ghost predicate Valid()
      reads this
    {
      forall i, j :: 0 <= i < j < |todos| ==> todos[i] != todos[j]
    }

    /** The values the items hold. */
    function Items(): (r: seq<TodoItem>)
      reads this, todos
      ensures |r| == |todos|
      ensures forall k :: 0 <= k < |todos| ==> r[k] == TodoItem(todos[k].text, todos[k].completed)
    {
      seq(|todos|, k reads this, todos requires 0 <= k < |todos| => TodoItem(todos[k].text, todos[k].completed))
    }

    constructor (items: seq<TodoEntry>)
      requires forall i, j :: 0 <= i < j < |items| ==> items[i] != items[j]
      ensures Valid() && todos == items
    {
      todos := items;
    }

    /**
     * `handleTodoToggle`: the array is copied, but the copy holds the same
     * item objects, so the flag flips on the object every holder shares.
     */
    method HandleTodoToggle(index: nat)
      requires Valid() && index < |todos|
      modifies this, todos[index]
      ensures Valid()
      ensures todos == old(todos)
      ensures Items() == Toggled(old(Items()), index)
    {
      var newTodos := todos;
      newTodos[index].completed := !newTodos[index].completed;
      todos := newTodos;
    }
  }

  // ---------------------------------------------------------------- copy list

  /** One line of the copied list. */
  function CopyLine(t: TodoItem): string {
    "- " + t.text
  }

  /** The text of "Copy List": one `- ` line per todo, joined with line feeds. */
  function CopyListText(todos: seq<TodoItem>): string {
    Join(Map(todos, CopyLine), "\n")
  }

  /** An empty list copies as the empty text. */
  lemma CopyListEmpty()
    ensures CopyListText([]) == ""
  {
  }

  /**
   * The copied text of single-line todos splits at line feeds into exactly
   * one `- ` line per todo, in order: there is no trailing line feed.
   */
  lemma CopyListLines(todos: seq<TodoItem>)
    requires todos != []
    requires forall k :: 0 <= k < |todos| ==> OneLine(todos[k].text)
    ensures Split(CopyListText(todos), {'\n'}) == Map(todos, CopyLine)
    ensures forall k :: 0 <= k < |todos| ==> StartsWith(Map(todos, CopyLine)[k], "- ")
  {
    var lines := Map(todos, CopyLine);
    forall k | 0 <= k < |lines|
      ensures OneLine(lines[k])
    {
      assert lines[k] == "- " + todos[k].text;
    }
    SplitJoin(lines, '\n');
  }
}
