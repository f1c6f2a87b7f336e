/*
 * The shared data model: the category of a transcript and the structured
 * content produced for it.
 */
module Types {

  /** A value that may be absent (a regex match or group, a parsed body). */
  datatype Option<T> = None | Some(value: T)

  /** The category of a processed transcript. `UNKNOWN` is declared but never produced. */
  datatype DataType = TODO | TABLE | NOTE | UNKNOWN

  /** One entry of a task list. */
  datatype TodoItem = TodoItem(text: string, completed: bool)

  /** A table: column names and rows of cells. */
  datatype TableData = TableData(headers: seq<string>, rows: seq<seq<string>>)

  /** The `content` field, whose shape depends on the category. */
  datatype Content =
    | TodoContent(items: seq<TodoItem>)
    | TableContent(table: TableData)
    | TextContent(text: string)

  /** What processing a transcript returns. */
  datatype ProcessedResult = ProcessedResult(kind: DataType, content: Content, rawTranscription: string)
}
