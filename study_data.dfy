/** The shared log file data.csv: one study session per row, under a header row
    naming the six columns. Both pages of the application read it; the survey
    page also writes it. */
module StudyData {

  datatype Option<T> = None | Some(value: T)

  datatype Result<T, E> = Ok(value: T) | Err(error: E)

  /** One study session as stored in the log. Study hours are kept as a whole
      number of half hours: the survey slider moves in steps of 0.5, so this is
      exact (2.5 hours is 5). */
  datatype Session = Session(
    timestamp: string,
    subject: string,
    halfHours: int,
    focus: int,
    understanding: int,
    topics: string)

  /** The value of one CSV cell, typed the way the log's columns are read back. */
  datatype Cell = Text(text: string) | Hours(halfHours: int) | Whole(n: int)

  /** A line of the CSV file: the header naming the columns, or one data row. */
  datatype Line = HeaderLine(names: seq<string>) | DataLine(cells: seq<Cell>)

  /** The column names, in the order in which the survey page builds a row. */
  const Columns: seq<string> :=
    ["timestamp", "subject", "study_hours", "focus_level", "understanding", "topics_covered"]

  /** The cells of a session's row, in column order. */
  function Cells(s: Session): seq<Cell> {
    [Text(s.timestamp), Text(s.subject), Hours(s.halfHours),
     Whole(s.focus), Whole(s.understanding), Text(s.topics)]
  }

  /** Looking a session's value up by column name, as `row['study_hours']` does. */
  function CellFor(s: Session, column: string): Option<Cell> {
    if column == "timestamp" then Some(Text(s.timestamp))
    else if column == "subject" then Some(Text(s.subject))
    else if column == "study_hours" then Some(Hours(s.halfHours))
    else if column == "focus_level" then Some(Whole(s.focus))
    else if column == "understanding" then Some(Whole(s.understanding))
    else if column == "topics_covered" then Some(Text(s.topics))
    else None
  }

  /** The row written for a session lines its values up under the header: the
      i-th cell is what the i-th column name looks up, and nothing else is
      a column. */
  lemma CellsFollowColumns(s: Session)
    ensures |Cells(s)| == |Columns|
    ensures forall i :: 0 <= i < |Columns| ==> CellFor(s, Columns[i]) == Some(Cells(s)[i])
    ensures forall name :: name !in Columns ==> CellFor(s, name) == None
  {
  }

  /** Reading one data row back into a session; None when the row does not
      have the six typed cells of the log's schema. */
  function ParseCells(cells: seq<Cell>): (r: Option<Session>)
    ensures r.Some? ==> Cells(r.value) == cells
  {
    if |cells| == 6 && cells[0].Text? && cells[1].Text? && cells[2].Hours?
       && cells[3].Whole? && cells[4].Whole? && cells[5].Text?
    then
      Some(Session(cells[0].text, cells[1].text, cells[2].halfHours,
                   cells[3].n, cells[4].n, cells[5].text))
    else None
  }

  /** Writing a session and reading its row back gives the same session. */
  lemma ParseCellsOfCells(s: Session)
    ensures ParseCells(Cells(s)) == Some(s)
  {
  }

  /** The data rows written for a sequence of sessions, one line each, in order. */
  function Encode(log: seq<Session>): (lines: seq<Line>)
    ensures |lines| == |log|
    ensures forall i :: 0 <= i < |log| ==> lines[i] == DataLine(Cells(log[i]))
  {
    if log == [] then [] else [DataLine(Cells(log[0]))] + Encode(log[1..])
  }

  /** Appending a session to the log appends exactly its row to the encoding. */
  lemma EncodeAppend(log: seq<Session>, s: Session)
    ensures Encode(log + [s]) == Encode(log) + [DataLine(Cells(s))]
  {
    assert forall i :: 0 <= i < |log| ==> (log + [s])[i] == log[i];
  }

  datatype ReadError = FileNotFound | EmptyData | UnexpectedHeader | MalformedRow

  /** Parsing the data rows below the header. */
  function ParseRows(lines: seq<Line>): (r: Result<seq<Session>, ReadError>)
    ensures r.Ok? ==> Encode(r.value) == lines
    ensures r.Ok? <==> forall i :: 0 <= i < |lines| ==>
                         lines[i].DataLine? && ParseCells(lines[i].cells).Some?
  {
    if lines == [] then Ok([])
    else match lines[0]
      case HeaderLine(_) => Err(MalformedRow)
      case DataLine(cells) =>
        match ParseCells(cells)
        case None => Err(MalformedRow)
        case Some(s) =>
          match ParseRows(lines[1..])
          case Err(e) => Err(e)
          case Ok(rest) => Ok([s] + rest)
  }

  /** `pd.read_csv('data.csv')`: fails when the file is absent (`present` is
      what `os.path.exists` answers) or has no bytes; otherwise the first line
      is the header and every further line a row. The model additionally
      rejects a header other than the log's six columns in their order, and a
      row that does not fit the schema; pandas itself reads both. */
  function ReadCsv(present: bool, lines: seq<Line>): (r: Result<seq<Session>, ReadError>)
    ensures r.Ok? ==> present && lines == [HeaderLine(Columns)] + Encode(r.value)
    ensures !present ==> r == Err(FileNotFound)
    ensures present && lines == [] ==> r == Err(EmptyData)
  {
    if !present then Err(FileNotFound)
    else if lines == [] then Err(EmptyData)
    else if lines[0] != HeaderLine(Columns) then Err(UnexpectedHeader)
    else ParseRows(lines[1..])
  }

  /** The round trip of the log: a file holding the header and the encoded
      sessions reads back as exactly those sessions, in order. */
  lemma {:induction false} ParseRowsOfEncode(log: seq<Session>)
    ensures ParseRows(Encode(log)) == Ok(log)
  {
    if log != [] {
      ParseRowsOfEncode(log[1..]);
      ParseCellsOfCells(log[0]);
      assert Encode(log)[1..] == Encode(log[1..]);
      assert log == [log[0]] + log[1..];
    }
  }

  lemma ReadCsvOfLog(log: seq<Session>)
    ensures ReadCsv(true, [HeaderLine(Columns)] + Encode(log)) == Ok(log)
  {
    ParseRowsOfEncode(log);
    assert ([HeaderLine(Columns)] + Encode(log))[1..] == Encode(log);
  }
}
