/** The spreadsheet library's view of one cell, reduced to what the reader
    asks of it. Every accessor the reader calls is a field here; numbers and
    dates are carried as the text their Java `toString` renders. */
module Cells {
  import opened Results
  import opened Text

  /** The library's cell type tags; `NONE` is its `_NONE`. */
  datatype CellType = NUMERIC | STRING | FORMULA | BLANK | BOOLEAN | ERROR | NONE

  /** The type a formula's cached result can have: never a formula itself. */
  type ResultType = t: CellType | !t.FORMULA? witness NUMERIC

  /** The Java objects a cell read can produce. */
  datatype Value =
    | StringValue(text: string)
    | DoubleValue(rendered: string)   // a java.lang.Double, as Double.toString renders it
    | BooleanValue(b: bool)
    | ByteValue(code: int)            // an error code, a java.lang.Byte
    | DateValue(rendered: string)     // a java.util.Date, as Date.toString renders it

  /** `Object.toString` of a value. */
  function ValueText(v: Value): string {
    match v
    case StringValue(t) => t
    case DoubleValue(t) => t
    case BooleanValue(b) => if b then "true" else "false"
    case ByteValue(code) => IntToString(code)
    case DateValue(t) => t
  }

  /** A physical cell of a row. */
  datatype Cell = Cell(
    columnIndex: nat,
    rowIndex: nat,
    cellType: CellType,
    cachedType: Option<ResultType>,  // getCachedFormulaResultType
    stringValue: string,             // getStringCellValue
    numericValue: string,            // getNumericCellValue, rendered
    booleanValue: bool,              // getBooleanCellValue
    formula: string,                 // getCellFormula
    errorValue: int,                 // getErrorCellValue
    dateFormatted: bool,             // DateUtil.isCellDateFormatted
    formatString: string,            // getCellStyle().getDataFormatString()
    dateValue: string                // getDateCellValue, rendered
  )
}
