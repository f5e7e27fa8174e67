/** `DataReader`: opens one sheet of a workbook and turns its rows into
    `CellData` lists, the header row by A1 names and data rows by the labels
    of the header row. */
module DataReader {
  import opened Results
  import opened Text
  import opened Cells
  import opened CellRecord
  import opened CellReference

  /** A sheet's physical rows by zero-based row number; a missing key is a row the sheet does not have. */
  datatype Sheet = Sheet(rows: map<int, seq<Cell>>)

  /** An opened workbook: its sheets with their names, in workbook order. */
  datatype Workbook = Workbook(sheets: seq<(string, Sheet)>)

  /** The uploaded file: whether it exists and what opening it as a workbook gives. */
  datatype ExcelFile = ExcelFile(present: bool, contents: Result<Workbook>)

  /** The reader's state: the workbook until it is closed, the sheet once one is
      opened, and how many times the workbook has been closed. */
  datatype Reader = Reader(workbook: Option<Workbook>, sheet: Option<Sheet>, workbookCloses: nat)

  const FileNotFound := "Excel file not found."
  const SheetIsNull := "Sheet is null"
  const RowNotFound := "Row number not found"

  /** The constructor: a missing file is refused before the library sees it. */
  function OpenReader(file: Option<ExcelFile>): (r: Result<Reader>)
    ensures r.Ok? <==> file.Some? && file.value.present && file.value.contents.Ok?
    ensures file.None? || !file.value.present ==> r == Raise(RuntimeError, FileNotFound)
    ensures file.Some? && file.value.present && file.value.contents.Err? ==> r == Err(file.value.contents.failure)
    ensures r.Ok? ==> r.value.workbook == Some(file.value.contents.value) && r.value.sheet.None? && r.value.workbookCloses == 0
  {
    if file.None? || !file.value.present then Raise(RuntimeError, FileNotFound)
    else match file.value.contents
      case Err(f) => Err(f)
      case Ok(wb) => Ok(Reader(Some(wb), None, 0))
  }

  /** `hasNextRow`: whether the current sheet has a row at `rowNo`. */
  function HasNextRow(r: Reader, rowNo: int): (b: Result<bool>)
    ensures b.Ok? <==> r.sheet.Some?
    ensures b.Ok? ==> (b.value <==> rowNo in r.sheet.value.rows)
  {
    match r.sheet
    case None => Err(NullDereference)
    case Some(s) => Ok(rowNo in s.rows)
  }

  /** The type `GetValue` ends up reading: a formula's cached result type when it has one. */
  function Resolved(cell: Cell, ty: CellType): CellType {
    if ty.FORMULA? && cell.cachedType.Some? then cell.cachedType.value else ty
  }

  /** `getValue`: the cell's Java value when read as type `ty`, or null. */
  function GetValue(cell: Cell, ty: CellType): (v: Option<Value>)
    ensures var t := Resolved(cell, ty);
      && (v.None? <==> t.BLANK? || t.NONE?)
      && (t.STRING? ==> v == Some(StringValue(cell.stringValue)))
      && (t.NUMERIC? ==> v == Some(DoubleValue(cell.numericValue)))
      && (t.BOOLEAN? ==> v == Some(BooleanValue(cell.booleanValue)))
      && (t.ERROR? ==> v == Some(ByteValue(cell.errorValue)))
      && (t.FORMULA? ==> v == Some(StringValue(cell.formula)))
    decreases if ty.FORMULA? then 1 else 0
  {
    match ty
    case STRING => Some(StringValue(cell.stringValue))
    case NUMERIC => Some(DoubleValue(cell.numericValue))
    case BOOLEAN => Some(BooleanValue(cell.booleanValue))
    case FORMULA =>
      (match cell.cachedType
       case Some(t) => GetValue(cell, t)
       case None => Some(StringValue(cell.formula)))
    case ERROR => Some(ByteValue(cell.errorValue))
    case BLANK => None
    case NONE => None
  }

  /** The position of the first header entry for column `col`, or `|header|`. */
  function FirstIndexWithColumn(header: seq<CellData>, col: int): (k: nat)
    ensures k <= |header|
    ensures k < |header| ==> header[k].columnIndex == col
    ensures forall j :: 0 <= j < k ==> header[j].columnIndex != col
    decreases |header|
  {
    if |header| == 0 then 0
    else if header[0].columnIndex == col then 0
    else 1 + FirstIndexWithColumn(header[1..], col)
  }

  /** `getColumnHeader`: without a header row the cell's A1 name; with one, the
      trimmed text of the first header entry in the same column, or null.
      The trimmed text is the header record's own String when that record
      holds a String that `trim` leaves alone, the interned literal for a
      Boolean, and a new String otherwise. */
  function GetColumnHeader(cell: Cell, header: Option<seq<CellData>>, col: int): (r: Result<Option<Label>>)
    ensures header.None? ==> r.Ok? && r.value.Some? && r.value.value.text == CellName(cell.columnIndex, cell.rowIndex)
    ensures header.Some? ==> var k := FirstIndexWithColumn(header.value, col);
      && (k == |header.value| ==> r == Ok(None))
      && (k < |header.value| ==> (r.Ok? <==> header.value[k].formattedData.Some?))
      && (k < |header.value| && r.Ok? ==> r.value.Some? && r.value.value.text == Trim(ValueText(header.value[k].formattedData.value)))
    ensures header.None? ==> r.value.value.owner == CellNameOf(cell.rowIndex, cell.columnIndex)
    ensures header.Some? && r.Ok? && r.value.Some? ==>
      var f := header.value[FirstIndexWithColumn(header.value, col)].formattedData.value;
      && (f.StringValue? && Trim(f.text) == f.text ==> r.value.value.owner == HeaderText(col))
      && (f.BooleanValue? ==> r.value.value.owner == BooleanLiteral(f.b))
      && (!(f.StringValue? && Trim(f.text) == f.text) && !f.BooleanValue? ==>
            r.value.value.owner == Rendered(cell.rowIndex, cell.columnIndex))
  {
    match header
    case None => Ok(Some(Label(CellName(cell.columnIndex, cell.rowIndex), CellNameOf(cell.rowIndex, cell.columnIndex))))
    case Some(h) =>
      var k := FirstIndexWithColumn(h, col);
      if k == |h| then Ok(None)
      else match h[k].formattedData
        case None => Err(NullDereference)
        case Some(f) =>
          var text := Trim(ValueText(f));
          var owner := match f
            case StringValue(t) => if text == t then HeaderText(col) else Rendered(cell.rowIndex, cell.columnIndex)
            case BooleanValue(b) => BooleanLiteral(b)
            case _ => Rendered(cell.rowIndex, cell.columnIndex);
          Ok(Some(Label(text, owner)))
  }

  /** `evaluateCellData`: builds the record for a cell whose value `v` has been
      read, formatting by the cell's own type (not a formula's cached type). */
  function EvaluateCellData(cell: Cell, v: Value, header: Option<seq<CellData>>, richText: string -> string): (r: Result<Option<CellData>>)
    ensures header.None? ==> r.Ok?
    ensures r.Ok? <==> GetColumnHeader(cell, header, cell.columnIndex).Ok?
    ensures r.Ok? ==> (r.value.None? <==> cell.cellType.BLANK? || cell.cellType.NONE?)
    ensures r.Ok? && r.value.Some? ==> var d := r.value.value;
      && d.columnIndex == cell.columnIndex
      && d.columnHeader == GetColumnHeader(cell, header, cell.columnIndex).value
      && (d.displayMask.Some? <==> cell.cellType.NUMERIC?)
      && (d.displayMask.Some? ==> d.displayMask.value == cell.formatString)
      && (cell.cellType.NUMERIC? && cell.dateFormatted ==>
            d.rawData == Some(DoubleValue(cell.numericValue)) && d.formattedData == Some(DateValue(cell.dateValue)))
      && (!(cell.cellType.NUMERIC? && cell.dateFormatted) ==> d.rawData == Some(v))
      && (cell.cellType.ERROR? ==> d.formattedData == Some(StringValue("ERROR:" + ValueText(v))))
      && (cell.cellType.BOOLEAN? || cell.cellType.FORMULA? ==> d.formattedData == Some(v))
      && (cell.cellType.STRING? ==> d.formattedData == Some(StringValue(richText(ValueText(v)))))
      && (cell.cellType.NUMERIC? && !cell.dateFormatted ==> d.formattedData == Some(v))
  {
    var col := cell.columnIndex;
    var heading :- GetColumnHeader(cell, header, col);
    match cell.cellType
    case ERROR => Ok(Some(NewCellData(col, heading, Some(v), Some(StringValue("ERROR:" + ValueText(v))))))
    case BOOLEAN => Ok(Some(NewCellData(col, heading, Some(v), Some(v))))
    case FORMULA => Ok(Some(NewCellData(col, heading, Some(v), Some(v))))
    case STRING => Ok(Some(NewCellData(col, heading, Some(v), Some(StringValue(richText(ValueText(v)))))))
    case NUMERIC =>
      if cell.dateFormatted
      then Ok(Some(CellData(col, heading, Some(DoubleValue(cell.numericValue)), Some(DateValue(cell.dateValue)), Some(cell.formatString))))
      else Ok(Some(CellData(col, heading, Some(v), Some(v), Some(cell.formatString))))
    case BLANK => Ok(None)
    case NONE => Ok(None)
  }

  /** A formula whose cached result is an error keeps the bare error code as
      its formatted data: the "ERROR:" prefix is for error cells only. */
  lemma FormulaErrorHasNoPrefix(cell: Cell, header: Option<seq<CellData>>, richText: string -> string)
    requires cell.cellType.FORMULA? && cell.cachedType == Some(ERROR)
    requires EvaluateCellData(cell, GetValue(cell, cell.cellType).value, header, richText).Ok?
    ensures var d := EvaluateCellData(cell, GetValue(cell, cell.cellType).value, header, richText).value;
      d.Some? && d.value.formattedData == Some(ByteValue(cell.errorValue)) && d.value.displayMask.None?
  {
  }

  /** Every data cell of a column whose header record holds a String that
      `trim` leaves alone is labelled with that one String object. */
  lemma ColumnSharesHeaderString(c1: Cell, c2: Cell, header: seq<CellData>, t: string)
    requires c1.columnIndex == c2.columnIndex
    requires var k := FirstIndexWithColumn(header, c1.columnIndex);
      k < |header| && header[k].formattedData == Some(StringValue(t)) && Trim(t) == t
    ensures GetColumnHeader(c1, Some(header), c1.columnIndex) == Ok(Some(Label(t, HeaderText(c1.columnIndex))))
    ensures GetColumnHeader(c1, Some(header), c1.columnIndex) == GetColumnHeader(c2, Some(header), c2.columnIndex)
  {
  }

  /** A string cell's record under a header row. */
  lemma StringCellRecord(c: Cell, v: Value, header: seq<CellData>, richText: string -> string)
    requires c.cellType.STRING? && GetColumnHeader(c, Some(header), c.columnIndex).Ok?
    ensures EvaluateCellData(c, v, Some(header), richText)
              == Ok(Some(NewCellData(c.columnIndex, GetColumnHeader(c, Some(header), c.columnIndex).value,
                                     Some(v), Some(StringValue(richText(ValueText(v)))))))
  {
  }

  /** Two string cells with the same text, in one column under a header that
      `trim` leaves alone, give records that `equals` finds equal. */
  lemma SameTextSameColumnEqual(c1: Cell, c2: Cell, header: seq<CellData>, t: string, richText: string -> string)
    requires c1.cellType.STRING? && c2.cellType.STRING? && c1.stringValue == c2.stringValue
    requires c1.columnIndex == c2.columnIndex
    requires var k := FirstIndexWithColumn(header, c1.columnIndex);
      k < |header| && header[k].formattedData == Some(StringValue(t)) && Trim(t) == t
    ensures var r1 := EvaluateCellData(c1, StringValue(c1.stringValue), Some(header), richText);
            var r2 := EvaluateCellData(c2, StringValue(c2.stringValue), Some(header), richText);
            r1.Ok? && r1.value.Some? && r2.Ok? && r2.value.Some? && Equals(r1.value.value, Some(r2.value.value))
  {
    ColumnSharesHeaderString(c1, c2, header, t);
    var v := StringValue(c1.stringValue);
    StringCellRecord(c1, v, header, richText);
    StringCellRecord(c2, v, header, richText);
  }

  /** A header "Name" over column A with "x" in A2 and in A3: the two data
      records are equal. */
  lemma SharedHeaderExample(c1: Cell, c2: Cell, header: seq<CellData>, richText: string -> string)
    requires c1.cellType.STRING? && c2.cellType.STRING? && c1.stringValue == c2.stringValue == "x"
    requires c1.columnIndex == c2.columnIndex == 0 && c1.rowIndex == 1 && c2.rowIndex == 2
    requires |header| == 1 && header[0].columnIndex == 0 && header[0].formattedData == Some(StringValue("Name"))
    ensures var r1 := EvaluateCellData(c1, StringValue("x"), Some(header), richText);
            var r2 := EvaluateCellData(c2, StringValue("x"), Some(header), richText);
            r1.Ok? && r1.value.Some? && r2.Ok? && r2.value.Some? && Equals(r1.value.value, Some(r2.value.value))
  {
    TrimKeeps("Name");
    SameTextSameColumnEqual(c1, c2, header, "Name", richText);
  }

  /** The cells of a row that have a value, in row order. */
  function ValuedCells(cells: seq<Cell>): (vs: seq<Cell>)
    ensures forall i :: 0 <= i < |vs| ==> GetValue(vs[i], vs[i].cellType).Some?
    ensures |vs| <= |cells|
  {
    if |cells| == 0 then []
    else if GetValue(cells[0], cells[0].cellType).Some? then [cells[0]] + ValuedCells(cells[1..])
    else ValuedCells(cells[1..])
  }

  /** What the header-row stream maps a cell to: nothing when the cell has no
      value, otherwise the record evaluated from the trimmed text of the value,
      with no header row to label it. */
  function HeaderCell(cell: Cell, richText: string -> string): (e: Option<CellData>)
    ensures e.Some? <==> GetValue(cell, cell.cellType).Some?
    ensures e.Some? ==>
      && e.value.columnIndex == cell.columnIndex
      && e.value.columnHeader == Some(Label(CellName(cell.columnIndex, cell.rowIndex), CellNameOf(cell.rowIndex, cell.columnIndex)))
      && e.value.formattedData.Some?
    ensures e.Some? ==> var t := Trim(ValueText(GetValue(cell, cell.cellType).value));
      && (!(cell.cellType.NUMERIC? && cell.dateFormatted) ==> e.value.rawData == Some(StringValue(t)))
      && (cell.cellType.BOOLEAN? || cell.cellType.FORMULA? || (cell.cellType.NUMERIC? && !cell.dateFormatted) ==>
            e.value.formattedData == Some(StringValue(t)))
      && (cell.cellType.STRING? ==> e.value.formattedData == Some(StringValue(richText(t))))
      && (cell.cellType.ERROR? ==> e.value.formattedData == Some(StringValue("ERROR:" + t)))
      && (cell.cellType.NUMERIC? && cell.dateFormatted ==> e.value.formattedData == Some(DateValue(cell.dateValue)))
  {
    match GetValue(cell, cell.cellType)
    case None => None
    case Some(v) => EvaluateCellData(cell, StringValue(Trim(ValueText(v))), None, richText).value
  }

  /** The header row's cells, valueless ones dropped. */
  function HeaderCells(cells: seq<Cell>, richText: string -> string): (hs: seq<CellData>)
    ensures |hs| == |ValuedCells(cells)|
    ensures forall i :: 0 <= i < |hs| ==> HeaderCell(ValuedCells(cells)[i], richText) == Some(hs[i])
  {
    if |cells| == 0 then []
    else
      var rest := HeaderCells(cells[1..], richText);
      match HeaderCell(cells[0], richText)
      case None => rest
      case Some(e) =>
        assert ValuedCells(cells) == [cells[0]] + ValuedCells(cells[1..]);
        ConsPairs((c, d) => HeaderCell(c, richText) == Some(d), cells[0], e, ValuedCells(cells[1..]), rest);
        [e] + rest
  }

  /** `readHeaderRow`: the labelled, non-empty cells of row `headerRowNo`. */
  function ReadHeaderRow(r: Reader, headerRowNo: int, richText: string -> string): (res: Result<seq<CellData>>)
    ensures r.sheet.None? ==> res == Raise(RuntimeError, SheetIsNull)
    ensures r.sheet.Some? && headerRowNo !in r.sheet.value.rows ==> res == Raise(RuntimeError, RowNotFound)
    ensures r.sheet.Some? && headerRowNo in r.sheet.value.rows ==>
      var vs := ValuedCells(r.sheet.value.rows[headerRowNo]);
      && res.Ok? && |res.value| == |vs|
      && forall i :: 0 <= i < |vs| ==>
           && res.value[i].columnIndex == vs[i].columnIndex
           && res.value[i].columnHeader.Some?
           && res.value[i].columnHeader.value.text == CellName(vs[i].columnIndex, vs[i].rowIndex)
           && res.value[i].formattedData.Some?
           && HeaderCell(vs[i], richText) == Some(res.value[i])
  {
    match r.sheet
    case None => Raise(RuntimeError, SheetIsNull)
    case Some(s) =>
      if headerRowNo !in s.rows then Raise(RuntimeError, RowNotFound)
      else Ok(HeaderCells(s.rows[headerRowNo], richText))
  }

  /** The column indices of a header row, in order. */
  function ColumnIndices(header: seq<CellData>): (idx: seq<int>)
    ensures |idx| == |header|
    ensures forall i :: 0 <= i < |header| ==> idx[i] == header[i].columnIndex
  {
    seq(|header|, i requires 0 <= i < |header| => header[i].columnIndex)
  }

  /** The cells of a row that lie in one of the columns `idx`, in row order. */
  function MappedCells(cells: seq<Cell>, idx: seq<int>): (ms: seq<Cell>)
    ensures forall i :: 0 <= i < |ms| ==> ms[i].columnIndex in idx
    ensures |ms| == 0 <==> forall i :: 0 <= i < |cells| ==> cells[i].columnIndex !in idx
  {
    if |cells| == 0 then []
    else if cells[0].columnIndex in idx then [cells[0]] + MappedCells(cells[1..], idx)
    else
      var rest := MappedCells(cells[1..], idx);
      assert forall i :: 1 <= i < |cells| ==> cells[i] == cells[1..][i - 1];
      rest
  }

  /** Every header entry has formatted data, as `readHeaderRow` guarantees. */
  predicate HeaderFormatted(header: seq<CellData>) {
    forall i :: 0 <= i < |header| ==> header[i].formattedData.Some?
  }

  /** What `readDataRow` emits for a cell in a mapped column: the evaluated
      record when the cell has a value, otherwise a placeholder with no data. */
  predicate IsDataEntry(cell: Cell, e: CellData, header: seq<CellData>, richText: string -> string) {
    var heading := GetColumnHeader(cell, Some(header), cell.columnIndex);
    && heading.Ok?
    && e.columnIndex == cell.columnIndex
    && e.columnHeader == heading.value
    && match GetValue(cell, cell.cellType)
       case None => e.rawData.None? && e.formattedData.None? && e.displayMask.None?
       case Some(v) => EvaluateCellData(cell, v, Some(header), richText) == Ok(Some(e))
  }

  /** What the row stream maps a cell in a mapped column to: the evaluated
      record when it has a value, otherwise a placeholder with no data. */
  function DataEntry(cell: Cell, header: seq<CellData>, richText: string -> string): (r: Result<Option<CellData>>)
    ensures HeaderFormatted(header) ==> r.Ok?
    ensures r.Ok? ==> r.value.Some? && IsDataEntry(cell, r.value.value, header, richText)
  {
    match GetValue(cell, cell.cellType)
    case Some(v) => EvaluateCellData(cell, v, Some(header), richText)
    case None =>
      var heading :- GetColumnHeader(cell, Some(header), cell.columnIndex);
      Ok(Some(CellData(cell.columnIndex, heading, None, None, None)))
  }

  /** The data row's cells in mapped columns, each evaluated or replaced by a placeholder. */
  function DataCells(cells: seq<Cell>, idx: seq<int>, header: seq<CellData>, richText: string -> string): (r: Result<seq<CellData>>)
    ensures HeaderFormatted(header) ==> r.Ok?
    ensures r.Ok? ==> |r.value| == |MappedCells(cells, idx)|
    ensures r.Ok? ==> forall i :: 0 <= i < |r.value| ==> IsDataEntry(MappedCells(cells, idx)[i], r.value[i], header, richText)
  {
    if |cells| == 0 then Ok([])
    else if cells[0].columnIndex !in idx then DataCells(cells[1..], idx, header, richText)
    else
      var e :- DataEntry(cells[0], header, richText);
      var rest :- DataCells(cells[1..], idx, header, richText);
      ConsPairs((c, d) => IsDataEntry(c, d, header, richText), cells[0], e.value, MappedCells(cells[1..], idx), rest);
      Ok([e.value] + rest)
  }

  /** A pairing that holds for the heads and pointwise for the tails holds
      pointwise for the whole sequences. */
  lemma ConsPairs<A, B>(ok: (A, B) -> bool, x: A, y: B, xs: seq<A>, ys: seq<B>)
    requires ok(x, y)
    requires |xs| == |ys| && forall i :: 0 <= i < |xs| ==> ok(xs[i], ys[i])
    ensures forall i :: 0 <= i < |xs| + 1 ==> ok(([x] + xs)[i], ([y] + ys)[i])
  {
    forall i | 0 <= i < |xs| + 1
      ensures ok(([x] + xs)[i], ([y] + ys)[i])
    {
      if i > 0 {
        assert ([x] + xs)[i] == xs[i - 1] && ([y] + ys)[i] == ys[i - 1];
      }
    }
  }

  /** `readDataRow`: the cells of row `dataRowNo` that lie in a column of the header row. */
  function ReadDataRow(r: Reader, dataRowNo: int, header: seq<CellData>, richText: string -> string): (res: Result<seq<CellData>>)
    ensures r.sheet.None? ==> res == Raise(RuntimeError, SheetIsNull)
    ensures r.sheet.Some? && dataRowNo !in r.sheet.value.rows ==> res == Raise(RuntimeError, RowNotFound)
    ensures r.sheet.Some? && dataRowNo in r.sheet.value.rows && HeaderFormatted(header) ==> res.Ok?
    ensures res.Ok? ==> r.sheet.Some? && dataRowNo in r.sheet.value.rows
    ensures res.Ok? ==>
      var ms := MappedCells(r.sheet.value.rows[dataRowNo], ColumnIndices(header));
      && |res.value| == |ms|
      && forall i :: 0 <= i < |ms| ==> IsDataEntry(ms[i], res.value[i], header, richText)
  {
    var colIdxes := ColumnIndices(header);
    match r.sheet
    case None => Raise(RuntimeError, SheetIsNull)
    case Some(s) =>
      if dataRowNo !in s.rows then Raise(RuntimeError, RowNotFound)
      else DataCells(s.rows[dataRowNo], colIdxes, header, richText)
  }

  /** A data row reads as empty exactly when none of its physical cells lies
      in a header column; a row of blank cells in header columns is not empty. */
  lemma ReadDataRowEmptyIff(r: Reader, dataRowNo: int, header: seq<CellData>, richText: string -> string)
    requires ReadDataRow(r, dataRowNo, header, richText).Ok?
    ensures var cells := r.sheet.value.rows[dataRowNo];
      |ReadDataRow(r, dataRowNo, header, richText).value| == 0 <==>
      forall i :: 0 <= i < |cells| ==> forall j :: 0 <= j < |header| ==> cells[i].columnIndex != header[j].columnIndex
  {
    var cells := r.sheet.value.rows[dataRowNo];
    var idx := ColumnIndices(header);
    assert forall c: int :: c in idx <==> exists j :: 0 <= j < |header| && c == header[j].columnIndex;
  }

  /** In the data pass every emitted record carries a heading: the trimmed text
      of the first header entry of its column. */
  lemma DataLabelsResolve(r: Reader, dataRowNo: int, header: seq<CellData>, richText: string -> string)
    requires ReadDataRow(r, dataRowNo, header, richText).Ok?
    ensures var row := ReadDataRow(r, dataRowNo, header, richText).value;
      forall i :: 0 <= i < |row| ==>
        var k := FirstIndexWithColumn(header, row[i].columnIndex);
        && k < |header|
        && header[k].formattedData.Some?
        && row[i].columnHeader.Some?
        && row[i].columnHeader.value.text == Trim(ValueText(header[k].formattedData.value))
  {
    var row := ReadDataRow(r, dataRowNo, header, richText).value;
    var ms := MappedCells(r.sheet.value.rows[dataRowNo], ColumnIndices(header));
    forall i | 0 <= i < |row|
      ensures var k := FirstIndexWithColumn(header, row[i].columnIndex);
        && k < |header|
        && header[k].formattedData.Some?
        && row[i].columnHeader.Some?
        && row[i].columnHeader.value.text == Trim(ValueText(header[k].formattedData.value))
    {
      assert IsDataEntry(ms[i], row[i], header, richText);
      var k := FirstIndexWithColumn(header, ms[i].columnIndex);
      var j :| 0 <= j < |header| && ColumnIndices(header)[j] == ms[i].columnIndex;
      assert header[j].columnIndex == ms[i].columnIndex;
      assert k <= j;
    }
  }

  /** `Workbook.getSheet`: the position of the first sheet whose name equals
      `name` ignoring case, or `|sheets|` when there is none. */
  function FindSheet(sheets: seq<(string, Sheet)>, name: string): (k: nat)
    ensures k <= |sheets|
    ensures k < |sheets| ==> EqualsIgnoreCase(sheets[k].0, name)
    ensures forall j :: 0 <= j < k ==> !EqualsIgnoreCase(sheets[j].0, name)
    decreases |sheets|
  {
    if |sheets| == 0 then 0
    else if EqualsIgnoreCase(sheets[0].0, name) then 0
    else 1 + FindSheet(sheets[1..], name)
  }

  /** Some sheet of the workbook has the name, ignoring case. */
  predicate HasSheet(wb: Workbook, name: string) {
    exists i :: 0 <= i < |wb.sheets| && EqualsIgnoreCase(wb.sheets[i].0, name)
  }

  /** Sheet `k` is the first whose name equals `name` ignoring case. */
  predicate FirstMatch(wb: Workbook, name: string, k: nat)
    requires k < |wb.sheets|
  {
    && EqualsIgnoreCase(wb.sheets[k].0, name)
    && forall j :: 0 <= j < k ==> !EqualsIgnoreCase(wb.sheets[j].0, name)
  }

  /** `openSheet`: a null or empty name, a closed workbook and an unknown name
      are refused; the name is matched ignoring case, first sheet first. */
  function OpenSheet(r: Reader, sheetName: Option<string>): (res: Result<Reader>)
    ensures res.Ok? <==> (sheetName.Some? && |sheetName.value| > 0 && r.workbook.Some? && HasSheet(r.workbook.value, sheetName.value))
    ensures sheetName.None? || sheetName == Some("") ==>
      res == Raise(RuntimeError, "'" + JavaText(sheetName) + "' cannot be empty")
    ensures res.Ok? ==>
      exists k :: 0 <= k < |r.workbook.value.sheets| && FirstMatch(r.workbook.value, sheetName.value, k) && res.value == r.(sheet := Some(r.workbook.value.sheets[k].1))
    ensures (sheetName.Some? && |sheetName.value| > 0 && r.workbook.Some? && !HasSheet(r.workbook.value, sheetName.value)) ==>
      res == Raise(RuntimeError, "Sheet with a name '" + sheetName.value + "' not found.")
  {
    if sheetName.None? || |sheetName.value| == 0 then Raise(RuntimeError, "'" + JavaText(sheetName) + "' cannot be empty")
    else match r.workbook
      case None => Err(NullDereference)
      case Some(wb) =>
        var k := FindSheet(wb.sheets, sheetName.value);
        if k == |wb.sheets| then Raise(RuntimeError, "Sheet with a name '" + sheetName.value + "' not found.")
        else Ok(r.(sheet := Some(wb.sheets[k].1)))
  }

  /** A sheet named "Data" is opened by the name "DATA". */
  lemma OpenSheetIgnoresCase(r: Reader, s: Sheet)
    requires r.workbook == Some(Workbook([("Data", s)]))
    ensures OpenSheet(r, Some("DATA")) == Ok(r.(sheet := Some(s)))
  {
    assert EqualsIgnoreCase("Data", "DATA") by {
      assert UpperCase('a') == 'A' && UpperCase('t') == 'T';
    }
  }

  /** `close`: closes the workbook if it is still open and forgets it. */
  function Close(r: Reader): (c: Reader)
    ensures c.workbook.None? && c.sheet == r.sheet
    ensures c.workbookCloses == r.workbookCloses + (if r.workbook.Some? then 1 else 0)
  {
    Reader(None, r.sheet, r.workbookCloses + (if r.workbook.Some? then 1 else 0))
  }

  /** `close` called `n` times in a row. */
  function CloseTimes(r: Reader, n: nat): Reader
    decreases n
  {
    if n == 0 then r else CloseTimes(Close(r), n - 1)
  }

  /** However often `close` is called, the workbook is closed at most once:
      every call after the first changes nothing. */
  lemma {:induction false} CloseIdempotent(r: Reader, n: nat)
    requires n >= 1
    ensures CloseTimes(r, n) == Close(r)
    ensures CloseTimes(r, n).workbookCloses <= r.workbookCloses + 1
    decreases n
  {
    if n > 1 {
      CloseIdempotent(Close(r), n - 1);
    }
  }
}
