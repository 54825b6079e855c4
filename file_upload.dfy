/**
 * The spreadsheet picker (src/components/FileUpload.tsx): the MIME check, the callbacks it
 * fires, the reset of the input, and the split of the parsed rows into headers and data.
 * Reading the file and decoding the workbook are not modelled: the parser's rows are an input.
 */
module FileUpload {
  import opened Wrappers

  /** A chosen file, by name and MIME type. */
  datatype File = File(name: string, mimeType: string)

  const XlsxType := "application/vnd.openxmlformats-officedocument.spreadsheetml.sheet"
  const XlsType := "application/vnd.ms-excel"

  /** Only the two spreadsheet types, compared exactly. */
  predicate AcceptedType(mimeType: string)
  {
    mimeType == XlsxType || mimeType == XlsType
  }

  /** The parsed sheet: the first row as headers, the other rows as data. */
  datatype ExcelData<T> = ExcelData(headers: seq<T>, data: seq<seq<T>>)

  /** What the picker reports to its parent, in order. */
  datatype Callback = OnFileSelect(file: Option<File>) | OnDataParsed(data: Option<ExcelData<string>>) | StartParse(parsed: File)

  /** The calls `handleFileSelect` makes for the chosen files (the first one counts). */
  function SelectCallbacks(files: seq<File>): seq<Callback>
  {
    if files == [] then []
    else if AcceptedType(files[0].mimeType) then [OnFileSelect(Some(files[0])), StartParse(files[0])]
    else [OnFileSelect(None), OnDataParsed(None)]
  }

  /**
   * No file chosen, no call. An accepted file is handed to the parent and parsed; any other file
   * clears both the parent's file and its parsed data.
   */
  lemma SelectCallbackCases(files: seq<File>)
    ensures files == [] <==> SelectCallbacks(files) == []
    ensures files != [] && AcceptedType(files[0].mimeType) ==>
      SelectCallbacks(files) == [OnFileSelect(Some(files[0])), StartParse(files[0])]
    ensures files != [] && !AcceptedType(files[0].mimeType) ==>
      SelectCallbacks(files) == [OnFileSelect(None), OnDataParsed(None)]
    ensures forall c :: c in SelectCallbacks(files) && c.OnFileSelect? && c.file.Some? ==> AcceptedType(c.file.value.mimeType)
  {
  }

  /** The split of the rows `sheet_to_json` returns; `None` means the parent is not called. */
  function SplitRows<T>(rows: seq<seq<T>>): Option<ExcelData<T>>
  {
    if |rows| > 0 then Some(ExcelData(rows[0], rows[1..])) else None
  }

  /** Headers followed by data give back the rows; an empty sheet reports nothing. */
  lemma SplitRowsRoundTrip<T>(rows: seq<seq<T>>)
    ensures SplitRows(rows).None? <==> rows == []
    ensures SplitRows(rows).Some? ==> [SplitRows(rows).value.headers] + SplitRows(rows).value.data == rows
  {
  }

  /** The hidden file input: its value is cleared after every selection, so the same file can be chosen again. */
  class FileInput {
    var value: string

    constructor()
      ensures value == ""
    {
      value := "";
    }

    method HandleFileSelect(files: seq<File>) returns (calls: seq<Callback>)
      modifies this
      ensures calls == SelectCallbacks(files)
      ensures value == ""
    {
      calls := SelectCallbacks(files);
      value := "";
    }
  }
}
