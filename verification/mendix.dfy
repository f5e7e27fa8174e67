/** The host platform's side of an import, reduced to what the processor
    reads and writes: a mapping template names, per sheet, which spreadsheet
    column fills which entity attribute, and an imported row becomes an
    object whose attributes are set by name. */
module Mendix {
  import opened Results
  import opened Cells
  import opened Decimals

  /** The attribute types of the host's domain model. */
  datatype PrimitiveType =
    | AutoNumber | Binary | Boolean | DateTime | Decimal | Enum | HashString | Integer | Long | String

  /** An entity attribute as its meta description gives it: the entity it
      belongs to, its own name and its declared type. */
  datatype Attribute = Attribute(entity: string, name: string, primitiveType: PrimitiveType)

  /** A `ColumnAttributeMapping`: the header text of a column and the attribute it fills. */
  datatype ColumnMapping = ColumnMapping(columnName: string, attribute: Attribute)

  /** A `Sheet` of the template: its name (possibly null) and the one-based
      rows at which the header and the data start. */
  datatype SheetMapping = SheetMapping(sheetName: Option<string>, headerRowStartsAt: int, dataRowStartsAt: int)

  /** What `setValue` receives: null, a cell's formatted value passed on as
      it is, a decimal, or an exception object handed over as a value. */
  datatype AttrValue =
    | Null
    | Passed(value: Value)
    | DecimalValue(decimal: BigDecimal)
    | ReturnedError(error: Failure)

  /** An instantiated object: its entity and the attributes set on it. */
  datatype Record = Record(entity: string, attributes: map<string, AttrValue>)
}
