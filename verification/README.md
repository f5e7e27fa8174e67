# DataImporter core in Dafny

This project models the core of the DataImporter module, which imports rows of an Excel
workbook into objects of the host platform. A mapping template lists sheets. Each sheet
has a one-based header row, a one-based first data row and column-to-attribute mappings.

- `DataReader` opens the workbook and a sheet. It reads the header row into labelled cell
  records, then reads data rows restricted to the header's columns.
- `DataProcessor` checks the header against the mappings. It then reads rows until the
  first missing row and turns each non-empty row into an object. Each mapped attribute is
  set from the cell whose header label equals the mapping's column name.
- `startImport` picks the format from the file name's extension. It parses every sheet
  and maps any failure to a user-facing message.

The modules follow the Java classes:

| module | models |
|---|---|
| `Results` | Java's exceptions, as `Failure(kind, message, cause)` values of a `Result` |
| `Text` | `String.valueOf(int)`, `trim`, `lastIndexOf` |
| `CellReference` | A1-style cell names |
| `Cells` | a spreadsheet cell as the library presents it |
| `CellRecord` | `ExcelCellData` |
| `DataReader` | `DataReader` |
| `Decimals` | `new BigDecimal(String)` and `toPlainString` |
| `ImporterUtils` | `DataImporterUtils` |
| `Mendix` | the host's attributes, mappings and objects |
| `DataProcessor` | `DataProcessor` |

Modelling choices:

- A workbook is a sequence of (name, sheet) pairs, searched in order with the name compared ignoring case. A sheet is a map from zero-based row number to the row's cells.
- An object is an entity name plus a map from attribute name to the value given to `setValue`.
- A Java `null` is `None`.
- The getters of `ExcelCellData` are the datatype's field selectors.
- A header label is its text plus the String object it is. `equals` compares labels with `==`,
  so it compares these objects. An A1 name is a new String for each cell. A data cell's label is
  the header record's own String when `trim` removes nothing from it, so every cell of that
  column shares one object. A Boolean header gives the interned literal. Any other label is a
  new String made for that data cell.
- The DataReader is a value. Each operation that changes it returns the new reader.
  `Close` counts how many times the workbook was closed.

## Model

| member | source | states |
|---|---|---|
| DataReader.OpenReader | javasource/dataimporter/implementation/service/DataReader.java:21-26 | A reader is built exactly when the file exists and the library opens it. A missing file fails with "Excel file not found." and a library failure passes through unchanged. A new reader has the workbook, no sheet, and nothing closed. |
| DataReader.HasNextRow | javasource/dataimporter/implementation/service/DataReader.java:28-30 | True exactly when the open sheet has the row. Without an open sheet it is a null dereference. |
| DataReader.GetValue | javasource/dataimporter/implementation/service/DataReader.java:83-102 | Each cell type yields the matching value. A formula yields its cached result read as the cached type, or the formula text when nothing is cached. Blank and none yield null, and nothing else does. |
| DataReader.EvaluateCellData | javasource/dataimporter/implementation/service/DataReader.java:104-126 | The record keeps the cell's column and header label. Error cells get the "ERROR:" prefix. Boolean and formula values are kept as they are. Strings go through rich-text normalisation. Numbers carry their format string, and date-formatted numbers keep the raw double and the date. It succeeds exactly when the header lookup does. |
| DataReader.FormulaErrorHasNoPrefix | javasource/dataimporter/implementation/service/DataReader.java:91-112 | A formula whose cached result is an error keeps the bare error code. It has no "ERROR:" prefix and no display mask, because the switch looks at the cell's own type. |
| DataReader.GetColumnHeader | javasource/dataimporter/implementation/service/DataReader.java:128-135 | Without a header list the label is the cell's A1 name, a String of its own. With one, the label is the trimmed text of the first header record in the same column, or null when there is none. A header record without formatted data is a null dereference. The label is the header record's own String when trimming changes nothing, the interned literal for a Boolean, and otherwise a String made for this cell. |
| DataReader.ColumnSharesHeaderString | javasource/dataimporter/implementation/service/DataReader.java:128-135 | Two cells of one column whose header String needs no trimming get the same label object. |
| DataReader.SameTextSameColumnEqual | javasource/dataimporter/implementation/model/ExcelCellData.java:49-59 | Two string cells with equal text in one such column give records that `equals` finds equal. |
| DataReader.SharedHeaderExample | javasource/dataimporter/implementation/model/ExcelCellData.java:49-59 | With header "Name" over column A, the records for "x" in A2 and in A3 are equal. |
| CellReference.CellName | javasource/dataimporter/implementation/service/DataReader.java:137-139 | The A1 name parses back to the cell's zero-based column and row. |
| CellReference.CellNameInjective | javasource/dataimporter/implementation/service/DataReader.java:137-139 | Different cells have different A1 names. |
| CellReference.ColumnNameRoundTrip | javasource/dataimporter/implementation/service/DataReader.java:138 | The column letters of every column index read back as that index. |
| CellReference.ColumnIndexRoundTrip | javasource/dataimporter/implementation/service/DataReader.java:138 | Every non-empty string of capital letters is the name of exactly one column. |
| DataReader.ValuedCells | javasource/dataimporter/implementation/service/DataReader.java:41-49 | Only cells with a value are kept, in row order. |
| DataReader.HeaderCell | javasource/dataimporter/implementation/service/DataReader.java:41-47 | A header cell gives a record exactly when it has a value. The record is evaluated from the value's text with `trim` applied. That trimmed text is the raw data, except for date-formatted numbers. Formulas, Booleans and plain numbers keep it as formatted data, strings get it after rich-text normalisation, and errors get it after "ERROR:". A date-formatted number shows its date. The record's label is the cell's own A1 name, a String built for that cell, and it always has formatted data. |
| DataReader.HeaderCells | javasource/dataimporter/implementation/service/DataReader.java:39-50 | There is one record per valued cell, in order, and each is that cell's header record. |
| DataReader.ReadHeaderRow | javasource/dataimporter/implementation/service/DataReader.java:32-52 | With no open sheet it fails with "Sheet is null". A missing row fails with "Row number not found". Otherwise there is one record per valued cell, in order, each labelled with its A1 name. |
| DataReader.ReadDataRow | javasource/dataimporter/implementation/service/DataReader.java:54-81 | It has the same two errors as the header read. It gives one record per cell in a header column, in order: the evaluated record when the cell has a value, otherwise a placeholder with only column and label. It succeeds whenever the row exists and every header record has formatted data. |
| DataReader.MappedCells | javasource/dataimporter/implementation/service/DataReader.java:68-70 | Only cells in a header column are kept. None are kept exactly when no cell lies in a header column. |
| DataReader.DataEntry | javasource/dataimporter/implementation/service/DataReader.java:72-76 | A cell with a value gives its evaluated record, and one without gives a placeholder carrying only the column and label. It cannot fail when every header record has formatted data. |
| DataReader.DataCells | javasource/dataimporter/implementation/service/DataReader.java:62-79 | There is one entry per cell in a header column, in order, and none for other cells. It cannot fail when every header record has formatted data. |
| DataReader.ReadDataRowEmptyIff | javasource/dataimporter/implementation/service/DataReader.java:68-78 | The list is empty exactly when no cell of the row lies in a header column. |
| DataReader.DataLabelsResolve | javasource/dataimporter/implementation/service/DataReader.java:74-76 | Each data record's label is the trimmed text of the first header record in its column. |
| DataReader.FindSheet | javasource/dataimporter/implementation/service/DataReader.java:145 | The position found is the first sheet whose name equals the wanted name ignoring case, or the end when none does. |
| DataReader.OpenSheet | javasource/dataimporter/implementation/service/DataReader.java:141-149 | A null or empty name fails with "'<name>' cannot be empty". Otherwise it succeeds exactly when the workbook is open and some sheet's name equals the name ignoring case. Then the first such sheet becomes the open sheet and nothing else changes. A name no sheet matches fails with "Sheet with a name '<name>' not found.". |
| DataReader.OpenSheetIgnoresCase | javasource/dataimporter/implementation/service/DataReader.java:145 | A sheet named "Data" opens under the name "DATA". |
| DataReader.Close | javasource/dataimporter/implementation/service/DataReader.java:151-157 | The workbook is released. It is closed once if it was open and not at all otherwise. The sheet is untouched. |
| DataReader.CloseIdempotent | javasource/dataimporter/implementation/service/DataReader.java:151-157 | Closing again changes nothing, so the workbook is closed at most once. |
| CellRecord.NewCellData | javasource/dataimporter/implementation/model/ExcelCellData.java:12-22 | The four-argument constructor stores its arguments and leaves the display mask null. |
| CellRecord.Equals | javasource/dataimporter/implementation/model/ExcelCellData.java:49-59 | Nothing equals null, and every record equals itself. |
| CellRecord.EqualsSymmetric | javasource/dataimporter/implementation/model/ExcelCellData.java:49-59 | Equality is symmetric. |
| CellRecord.EqualsImpliesFields | javasource/dataimporter/implementation/model/ExcelCellData.java:53-58 | Equal records agree on column, raw data, display mask and formatted data, and their labels are the same object. |
| CellRecord.HeaderComparedByIdentity | javasource/dataimporter/implementation/model/ExcelCellData.java:55 | Two records whose labels are A1 names with equal text, built for different cells, are not equal. |
| CellRecord.Wrap32 | javasource/dataimporter/implementation/model/ExcelCellData.java:46 | The result is in the 32-bit range and congruent to the exact value modulo 2^32. |
| CellRecord.HashCode | javasource/dataimporter/implementation/model/ExcelCellData.java:44-47 | The hash is a 32-bit int. |
| CellRecord.EqualsImpliesSameHash | javasource/dataimporter/implementation/model/ExcelCellData.java:44-59 | Equal records have equal hashes. |
| CellRecord.HashIgnoresHeader | javasource/dataimporter/implementation/model/ExcelCellData.java:44-47 | The label does not contribute to the hash. |
| Text.Trim | javasource/dataimporter/implementation/service/DataReader.java:133 | `String.trim` gives the infix that neither starts nor ends with a character at or below U+0020, and everything cut off on either side is such a character. |
| Text.LastIndexOf | javasource/dataimporter/implementation/utils/DataImporterUtils.java:13 | The result is -1 or a position holding the character, and no later position holds it. |
| Text.IntToStringRoundTrip | javasource/dataimporter/implementation/service/DataProcessor.java:148 | The row number written into a row error reads back as the same integer. |
| ImporterUtils.GetFileExtension | javasource/dataimporter/implementation/utils/DataImporterUtils.java:12-16 | A name fails exactly when it has no '.'. The failure carries "Found file has no extension to derive format from.". |
| ImporterUtils.ExtensionXlsIff | javasource/dataimporter/implementation/utils/DataImporterUtils.java:12-19 | XLS exactly when the name ends in ".xls". |
| ImporterUtils.ExtensionXlsxIff | javasource/dataimporter/implementation/utils/DataImporterUtils.java:12-21 | XLSX exactly when the name ends in ".xlsx". |
| ImporterUtils.ExtensionIgnoresPrefix | javasource/dataimporter/implementation/utils/DataImporterUtils.java:13-17 | Only the text from the last '.' on matters. |
| ImporterUtils.ExtensionExamples | javasource/dataimporter/implementation/utils/DataImporterUtils.java:17-23 | The match is exact and case-sensitive: ".xls" is XLS, "data.xlsx" is XLSX, and "data.XLS" is UNKNOWN. |
| ImporterUtils.LastSuffixExamples | javasource/dataimporter/implementation/utils/DataImporterUtils.java:12-25 | Only the last suffix counts ("a.xlsx.bak" is UNKNOWN), a trailing dot is UNKNOWN, and a name without a dot fails. |
| ImporterUtils.StagesAreOnePass | javasource/dataimporter/implementation/utils/DataImporterUtils.java:29-31 | The three replace and trim stages equal a one-pass reading. Letters, digits and '_' are kept and other characters are dropped. A run of spaces between kept characters becomes one '_', and leading or trailing runs vanish. |
| ImporterUtils.SanitizeName | javasource/dataimporter/implementation/utils/DataImporterUtils.java:27-32 | The result is the one-pass reading. It holds only letters, digits and '_', and the input's letters and digits survive in order. |
| ImporterUtils.SanitizeIdempotent | javasource/dataimporter/implementation/utils/DataImporterUtils.java:27-32 | Sanitizing twice is sanitizing once. |
| ImporterUtils.SanitizeJoinsWords | javasource/dataimporter/implementation/utils/DataImporterUtils.java:30-31 | Two words separated by spaces are joined by one '_'. |
| ImporterUtils.SanitizeDropsOuterSpaces | javasource/dataimporter/implementation/utils/DataImporterUtils.java:30 | Spaces around a word are dropped. |
| Decimals.ParseDecimal | javasource/dataimporter/implementation/service/DataProcessor.java:190 | An accepted text is non-empty, and its scale fits a Java `int`. What it reads is stated by the round trips and examples below. |
| Decimals.PlainStringRoundTrip | javasource/dataimporter/implementation/service/DataProcessor.java:190 | The BigDecimal text reader reads a decimal's plain rendering back as the same unscaled value and scale, for every non-negative scale that fits an `int`. |
| Decimals.SignedRead | javasource/dataimporter/implementation/service/DataProcessor.java:190 | A numeral with a leading '-' or '+' reads as its unsigned rest, negated after '-'. |
| Decimals.UnsignedRead | javasource/dataimporter/implementation/service/DataProcessor.java:190 | A numeral without a sign reads exactly as the unsigned numeral does. |
| Decimals.ExponentText | javasource/dataimporter/implementation/service/DataProcessor.java:190 | The decimal text of any `int`, with its minus sign, is read back by the exponent reader as that `int`. |
| Decimals.PlainStringNoMarker | javasource/dataimporter/implementation/service/DataProcessor.java:190 | The plain rendering of a decimal never holds an exponent marker. |
| Decimals.ExponentShift | javasource/dataimporter/implementation/service/DataProcessor.java:190 | Appending "E" and an exponent `e` to any numeral without an exponent keeps its unscaled value and lowers its scale by `e`, when `e` and the new scale fit an `int`. |
| Decimals.ExponentRoundTrip | javasource/dataimporter/implementation/service/DataProcessor.java:190 | The plain rendering of a decimal followed by "E" and the text of `e` reads as the same unscaled value at scale `scale - e`, for every non-negative scale, when `e` and the new scale fit an `int`. This is the shape `Double.toString` gives numbers from 10^7 on and below 10^-3. |
| Decimals.DoubleTextLarge | javasource/dataimporter/implementation/service/DataProcessor.java:190 | "1.2345678E7", the `Double.toString` text of 12345678.0, reads as 12345678 at scale 0. |
| Decimals.DoubleTextSmall | javasource/dataimporter/implementation/service/DataProcessor.java:190 | "5.0E-4", the `Double.toString` text of 0.0005, reads as 50 at scale 5. |
| Decimals.ParseExample | javasource/dataimporter/implementation/service/DataProcessor.java:190 | "1234.50" reads as 123450 at scale 2. |
| Decimals.RejectExamples | javasource/dataimporter/implementation/service/DataProcessor.java:190 | Non-numerals and the empty text are refused. |
| Decimals.RejectLargeExponent | javasource/dataimporter/implementation/service/DataProcessor.java:190 | "1E2147483648" is refused, because its exponent does not fit an `int`. |
| Decimals.RejectLargeScale | javasource/dataimporter/implementation/service/DataProcessor.java:190 | "1E-2147483648" is refused, because its scale 2^31 does not fit an `int`. |
| DataProcessor.GetMendixTypeObject | javasource/dataimporter/implementation/service/DataProcessor.java:179-194 | No formatted data gives null. String, Boolean and DateTime attributes get the formatted value as it is. Decimal gets the decimal that `new BigDecimal` reads from the formatted text, and fails with a number-format exception exactly when the reader refuses the text. Every other type gets the "Mismatched data type …" exception object as its value. |
| DataProcessor.OnlyDecimalFails | javasource/dataimporter/implementation/service/DataProcessor.java:184-193 | Only a Decimal attribute with formatted data can throw. |
| DataProcessor.DecimalAttributeRoundTrip | javasource/dataimporter/implementation/service/DataProcessor.java:189-190 | A cell showing a decimal's plain text sets exactly that decimal, for every non-negative scale that fits an `int`. |
| DataProcessor.DecimalAttributeExamples | javasource/dataimporter/implementation/service/DataProcessor.java:189-190 | "1234.50" sets 1234.50, and "abc" throws NumberFormatException. |
| DataProcessor.PutAllKeys | javasource/dataimporter/implementation/service/DataProcessor.java:155-165 | A key is in the built map exactly when some element has it. |
| DataProcessor.PutAllLast | javasource/dataimporter/implementation/service/DataProcessor.java:162-165 | The element stored under a key is the last one with that key. |
| DataProcessor.MetaIsSomeAttribute | javasource/dataimporter/implementation/service/DataProcessor.java:155-160 | The meta description stored under a name is one of the mappings' attributes. |
| DataProcessor.Assign | javasource/dataimporter/implementation/service/DataProcessor.java:168-175 | The only failure of the setter loop is the number-format exception of a Decimal conversion. |
| DataProcessor.AssignKeys | javasource/dataimporter/implementation/service/DataProcessor.java:168-175 | The setter loop sets an attribute exactly when some mapping for it has a column present in the row. |
| DataProcessor.AssignLast | javasource/dataimporter/implementation/service/DataProcessor.java:168-175 | An attribute ends up with the value from the last mapping that sets it. |
| DataProcessor.AssignFailsIff | javasource/dataimporter/implementation/service/DataProcessor.java:168-175 | The loop fails exactly when converting some present cell fails. |
| DataProcessor.ProcessRowData | javasource/dataimporter/implementation/service/DataProcessor.java:153-177 | Without mappings it fails with the index-out-of-bounds of `get(0)`. Otherwise the object has the first mapping's entity, and the only failure is a number-format exception. |
| DataProcessor.ProcessRowDataNeedsMapping | javasource/dataimporter/implementation/service/DataProcessor.java:167 | Without mappings, `get(0)` is out of bounds. |
| DataProcessor.ProcessRowDataKeys | javasource/dataimporter/implementation/service/DataProcessor.java:153-177 | The object has the first mapping's entity. Its set attributes are exactly those with a mapping whose column is some record's label. Attributes with no such mapping are left unset. |
| DataProcessor.ProcessRowDataValue | javasource/dataimporter/implementation/service/DataProcessor.java:162-175 | A set attribute holds the conversion of the last record with that label. The conversion uses the type from the last mapping with that attribute name. |
| DataProcessor.ProcessRowDataWithoutDecimals | javasource/dataimporter/implementation/service/DataProcessor.java:153-177 | With at least one mapping and no Decimal attribute, processing a row cannot fail. |
| DataProcessor.ReadExcelRow | javasource/dataimporter/implementation/service/DataProcessor.java:127-151 | A row read without failure moves on to the next row. An empty read list appends nothing, and any other row appends its processed object. It fails exactly when reading or processing fails, with "Unable to import sheet row '<n>' from sheet  '<sheet>'" around the cause. |
| DataProcessor.ReadExcelRowObjects | javasource/dataimporter/implementation/service/DataProcessor.java:137-146 | What a successful row appends is exactly the row's own object, or nothing. |
| DataProcessor.RowErrorDecodes | javasource/dataimporter/implementation/service/DataProcessor.java:148 | The row error message determines the row number and the sheet name. |
| DataProcessor.Run | javasource/dataimporter/implementation/service/DataProcessor.java:118-121 | The rows read are the consecutive rows from the start row. The row after them is missing. |
| DataProcessor.RowLoop | javasource/dataimporter/implementation/service/DataProcessor.java:118-121 | Without an open sheet the first `hasNextRow` is a null dereference. Otherwise it appends no more objects than the sheet has rows from the start row on, and any failure is a row's DataReaderException. |
| DataProcessor.RowLoopReadsRun | javasource/dataimporter/implementation/service/DataProcessor.java:118-121 | The loop reads exactly those consecutive rows in increasing order, up to the first missing row. |
| DataProcessor.ImportRowsCount | javasource/dataimporter/implementation/service/DataProcessor.java:118-121 | At most one object is appended per row. Without a failure the count is the number of non-empty rows. A failure names a row that was read, and only rows before it have appended. |
| DataProcessor.ImportRowsAppends | javasource/dataimporter/implementation/service/DataProcessor.java:137-146 | The objects appended are the rows' objects in row order. All of them are appended when no row fails, and a prefix otherwise. |
| DataProcessor.HeaderNames | javasource/dataimporter/implementation/service/DataProcessor.java:108-111 | The name set is exactly the untrimmed formatted texts of the header records. A record without formatted data is a null dereference. |
| DataProcessor.SingleHeaderName | javasource/dataimporter/implementation/service/DataProcessor.java:108-111 | A header of one record whose formatted data is the String `t` has exactly the name `t`. |
| DataProcessor.FormulaHeaderName | javasource/dataimporter/implementation/service/DataReader.java:43-45 | A formula cell in the header row with no cached result is named by its formula text, trimmed. |
| DataProcessor.TrimPadded | javasource/dataimporter/implementation/service/DataReader.java:45 | Trimming a text that has one space on each side and starts and ends above U+0020 gives back exactly the inner text. |
| DataProcessor.PaddedFormulaHeaderName | javasource/dataimporter/implementation/service/DataReader.java:45 | For every name that starts and ends above U+0020, a formula header cell " " + name + " " (such as " Name ") gives the single header name `name` ("Name"), so a mapping to that column finds it. |
| DataProcessor.FirstMissing | javasource/dataimporter/implementation/service/DataProcessor.java:112-116 | It finds the first mapping whose column is not a header name. All mappings before it are present. |
| DataProcessor.HeaderCheck | javasource/dataimporter/implementation/service/DataProcessor.java:104-116 | An empty header fails with "No column information could be found in sheet: '<sheet>'", and a header record without formatted data is a null dereference. The checks pass exactly when the header is non-empty, every record has formatted data and every mapped column is a header name. |
| DataProcessor.HeaderCheckPasses | javasource/dataimporter/implementation/service/DataProcessor.java:108-116 | A non-empty header whose names include every mapped column passes the checks. |
| DataProcessor.CheckHeader | javasource/dataimporter/implementation/service/DataProcessor.java:104-121 | The header failures above stop the sheet with nothing appended. An object is appended only when the header is non-empty and every mapped column is a header name. Once the checks pass, the row loop runs from the data start row. |
| DataProcessor.EmptyHeaderStops | javasource/dataimporter/implementation/service/DataProcessor.java:104-106 | An empty header row fails with "No column information could be found in sheet: '<sheet>'" before any row is read. |
| DataProcessor.MissingColumnStops | javasource/dataimporter/implementation/service/DataProcessor.java:112-116 | The first unmatched mapping fails with "column with a name: '<col>' is not found in sheet: '<sheet>'" before any row is read. |
| DataProcessor.MappedHeaderReadsRows | javasource/dataimporter/implementation/service/DataProcessor.java:112-121 | When every column is a header name, the rows from the data start row are imported. |
| DataProcessor.PassedHeaderReadsRows | javasource/dataimporter/implementation/service/DataProcessor.java:118-121 | Once the header checks pass on an open sheet, the consecutive rows from the data start row are read, up to the first missing row. |
| DataProcessor.ParseSheet | javasource/dataimporter/implementation/service/DataProcessor.java:95-121 | Parsing a sheet never opens or closes the workbook. |
| DataProcessor.ParseData | javasource/dataimporter/implementation/service/DataProcessor.java:93-125 | A reader exists exactly when the library opens the file, and then its workbook is closed exactly once on every path. Every failure leaves as a DataImporterRuntimeException carrying the message of the exception it wraps, which is its cause. A file that cannot be opened appends nothing and fails with that exception wrapped. |
| DataProcessor.ImportSheets | javasource/dataimporter/implementation/service/DataProcessor.java:57-59 | Every failure is `parseData`'s rewrapped exception with the same message as its cause. A file the library refuses fails on the first sheet with nothing appended. |
| DataProcessor.RefusedWorkbook | javasource/dataimporter/implementation/service/DataProcessor.java:93-124 | A workbook the library refuses fails the first sheet, wrapped once. No later sheet is parsed. |
| DataProcessor.ImportBody | javasource/dataimporter/implementation/service/DataProcessor.java:52-65 | Success needs a ".xls" or ".xlsx" name. No library exception leaves the try block unwrapped. A DataImporterRuntimeException leaving it either wraps a cause or is the no-extension error. |
| DataProcessor.ExcelNameParsesSheets | javasource/dataimporter/implementation/service/DataProcessor.java:54-60 | For a ".xls" or ".xlsx" name the try block is the sheet loop. |
| DataProcessor.HandleAsWritten | javasource/dataimporter/implementation/service/DataProcessor.java:67-81 | The handlers as written dispatch on the class of the exception that reaches them. A library exception gets its fixed message without a cause. Anything else becomes "Uploaded excel file could not be imported, because: <message>" with the exception as cause. |
| DataProcessor.HandleImportFailureIntended | javasource/dataimporter/implementation/service/DataProcessor.java:67-81 | Corrected handlers, see Findings. A library exception gets its fixed message even when wrapped on its way up, because they look at the root cause. Any other failure gets the generic message with the failure as cause. |
| DataProcessor.IntendedShape | javasource/dataimporter/implementation/service/DataProcessor.java:67-81 | The corrected handlers give either the generic message around a cause or one of the four library messages without a cause. |
| DataProcessor.HandlersAgreeUnwrapped | javasource/dataimporter/implementation/service/DataProcessor.java:67-81 | On an exception that wraps nothing, the handlers as written and the corrected ones agree. |
| DataProcessor.StartImportAsWritten | javasource/dataimporter/implementation/service/DataProcessor.java:51-91 | `startImport` as written. Success needs a ".xls" or ".xlsx" name. Every failure is the generic message around its cause. |
| DataProcessor.StartImportIntended | javasource/dataimporter/implementation/service/DataProcessor.java:51-91 | `startImport` with the corrected handlers. Success needs a ".xls" or ".xlsx" name. A failure is the generic message around its cause or a library message. |
| DataProcessor.NotExcelFailsEarly | javasource/dataimporter/implementation/service/DataProcessor.java:54-65 | A name without a dot, or with another extension, fails before any sheet is parsed. It appends nothing and gets the generic message around the extension error. Both versions of `startImport` agree here. |
| DataProcessor.StartImportAppends | javasource/dataimporter/implementation/service/DataProcessor.java:57-59 | In both versions the caller's list only grows and what it held stays in front. Both versions append the same records. |
| DataProcessor.LibraryFailureHiddenAsWritten | javasource/dataimporter/implementation/service/DataProcessor.java:67-81 | As written, a workbook the library refuses is reported with the generic message around `parseData`'s rewrapped exception, whatever the refusal was. |
| DataProcessor.EncryptedAsWritten | javasource/dataimporter/implementation/service/DataProcessor.java:76-81 | As written, an encrypted .xlsx gets the generic message. |
| DataProcessor.EncryptedReported | javasource/dataimporter/implementation/service/DataProcessor.java:76-78 | With the intended handler, an encrypted .xlsx gets "Document could not be imported because it is encrypted.". |
| DataProcessor.LibraryFailureReported | javasource/dataimporter/implementation/service/DataProcessor.java:67-78 | With the intended handler, any workbook the library refuses gets the fixed message for the refusal. |

## Left out

- Logging, `System.nanoTime` and the temp-file deletion in `startImport`'s `finally` are left out. They do not affect the result.
- Loading the template is left out: the sheets and mappings are a given sequence. The template is read through the host API (`Core.retrieveByPath`, `initialize`, `getMetaPrimitive`, `instantiate`, `setValue`).
- The parsed sheets are iterated in the order given. The source iterates a `HashMap`'s entry set, whose order is unspecified.
- The static `sheetName` field is a parameter of each sheet's parse. No other code reads it concurrently here.
- `XSSFRichTextString` normalisation is a function parameter `richText`. The library's exact behaviour is not modelled.
- Double and Date values are their rendered text. Their Java `toString` formats and `Double`/`Date` hash codes are not modelled.
- CellRecord.HashCode: only the 32-bit range is stated. `Double.hashCode` and `Date.hashCode` are replaced by the String hash of the rendered text.
- The messages of JVM-built exceptions (the null-dereference and number-format exceptions) are kept empty. The JVM composes them.
- Java `int` wrap-around of `dataRowNo++` and `getHeaderRowStartsAt() - 1` is not modelled. Row numbers are unbounded.
- Whether `setValue` accepts the exception object that `getMendixTypeObject` returns for unsupported types is host behaviour. The object is recorded as the value.
- The library's own failures inside `getRow`, `getSheet` and cell getters are not modelled. Only workbook construction can fail on the library side.
- `StringFromFile` and `toString` of `ExcelCellData` are left out. They are outside the import path.
- Decimals.PlainStringRoundTrip: the round trip is stated for non-negative scales only, and `PlainString` renders only those. `toPlainString` of a decimal with a negative scale pads with zeros instead: 1.5E3, unscaled 15 at scale -2, renders as "1500", which reads back as the same number at scale 0, not at scale -2. The same holds for DataProcessor.DecimalAttributeRoundTrip and Decimals.ExponentRoundTrip.
- Decimals.ParseDecimal: only the ASCII digits '0'-'9' are read as digits. `new BigDecimal(String)` also accepts other Unicode decimal digits (for example full-width "１２"), which the model refuses. The `int` limits on the exponent and the scale are modelled.
- DataProcessor.GetMendixTypeObject: a Decimal conversion inherits the ASCII-only digits of `Decimals.ParseDecimal`, so a cell showing non-ASCII digits is modelled as a number-format failure.
- DataReader.OpenSheet: case is ignored only for the Basic Latin and Latin-1 letters. The library's `equalsIgnoreCase` also folds every other Unicode letter.
- DataReader.GetColumnHeader: the Boolean literals are the only interned Strings the model tracks. Two labels that Java would get from the string pool in other ways count as distinct. Reading the header row twice gives the same `HeaderText` object in the model, where Java would build new Strings. Since `equals` also compares the column index, only labels within one column can ever be compared.
- CellRecord.StringHash: the String hash is taken over Unicode scalar values. Java hashes UTF-16 code units, so the two differ for characters outside the Basic Multilingual Plane.

The code behaves as follows in places where one might expect otherwise:

- Mapping columns are matched against the untrimmed formatted text of the header records, not a trimmed label.
- An unknown extension is not a format error raised when the workbook opens. It is thrown before any reader exists and then rewrapped by the generic handler.
- Format errors are not surfaced with their format-specific messages. See the finding below.
- An attribute of a type other than String, Boolean, DateTime or Decimal does not fail the row. It receives an exception object as its value.

## Findings

| source | as written | input that shows it | evidently intended | confidence | as-written member | corrected member |
|---|---|---|---|---|---|---|
| javasource/dataimporter/implementation/service/DataProcessor.java:122-124 | `parseData` catches every exception, including those from opening the workbook inside try-with-resources. It rethrows them as DataImporterRuntimeException, so the handlers at lines 67-78 never match. | An encrypted workbook named "data.xlsx" with one mapped sheet. | The user gets "Document could not be imported because it is encrypted." (and likewise for the other three library failures). Instead they get "Uploaded excel file could not be imported, because: …". | medium, not executed | DataProcessor.EncryptedAsWritten | DataProcessor.EncryptedReported |

`StartImportAsWritten` keeps the handler chain as written (`HandleAsWritten`), which dispatches on the class of the exception that reaches it. `StartImportIntended` uses the corrected `HandleImportFailureIntended`, which dispatches on the root cause. `LibraryFailureHiddenAsWritten` shows that the chain as written reports every library refusal with the generic message. `LibraryFailureReported` proves that the corrected chain reports every library refusal with its own message.
