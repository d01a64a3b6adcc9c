/** The spreadsheet document after XML parsing: a worksheet that may be
    missing, holding a table that may be missing, holding rows of cells.
    A cell is the text of its `Data` element; a cell without `Data`, or
    whose `Data` has no text, is `None` (the source treats empty text the
    same way, so `Some("")` behaves exactly like `None`). */
module Sheet {
  import opened Wrappers
  import opened Text

  type Cell = Option<string>
  type Row = seq<Cell>

  datatype Table = Table(rows: seq<Row>)
  datatype Worksheet = Worksheet(table: Option<Table>)
  datatype Document = Document(worksheet: Option<Worksheet>)

  /** Why a document yields no leaderboard; each has its own message. */
  datatype Failure = MissingWorksheet | MissingTable | TooFewRows

  /** Python's `data is not None and data.text`. */
  predicate HasText(c: Cell)
  {
    c.Some? && c.value != ""
  }

  /** A cell's integer value when it has text that `int()` accepts. Such
      text holds a decimal digit, so a label, a blank or a lone sign is
      never a score. */
  function ParseCell(c: Cell): (r: Option<int>)
    ensures r.Some? ==> c.Some? && exists i :: 0 <= i < |c.value| && IsDigit(c.value[i])
  {
    if HasText(c) then
      var v := ParseInt(c.value);
      if v.Some? then ParseIntNeedsDigit(c.value); v else v
    else None
  }

  /** The structural checks of `parse_xml`, in the order it makes them:
      the rows of the table when there is a worksheet, it has a table and
      the table has a header row and at least one more row. */
  function TableRows(doc: Document): (r: Result<seq<Row>, Failure>)
    ensures r.Ok? <==>
      doc.worksheet.Some? && doc.worksheet.value.table.Some? &&
      |doc.worksheet.value.table.value.rows| >= 2
    ensures r.Ok? ==> r.value == doc.worksheet.value.table.value.rows && |r.value| >= 2
    ensures r == Err(MissingWorksheet) <==> doc.worksheet.None?
    ensures r == Err(MissingTable) <==>
      doc.worksheet.Some? && doc.worksheet.value.table.None?
  {
    match doc.worksheet
    case None => Err(MissingWorksheet)
    case Some(ws) =>
      match ws.table
      case None => Err(MissingTable)
      case Some(t) => if |t.rows| < 2 then Err(TooFewRows) else Ok(t.rows)
  }
}
