/** `ExcelCellData`: the immutable five-field record the reader produces for
    each cell, with Java's `equals` and `hashCode`. */
module CellRecord {
  import opened Results
  import opened Cells

  /** Which String object a column header reference points to.
      `CellNameOf(row, col)`: the A1 name built for that cell, a new String
      each time. `HeaderText(col)`: the String held as formatted data by the
      header record of column `col`, which `toString` and a `trim` that
      removes nothing hand back unchanged, so every cell of the column shares
      it. `BooleanLiteral(b)`: the interned "true" or "false" of
      `Boolean.toString`. `Rendered(row, col)`: a String made while labelling
      the data cell (row, col): a rendered number or date, or a trimmed copy. */
  datatype Owner =
    | CellNameOf(row: nat, col: nat)
    | HeaderText(column: int)
    | BooleanLiteral(b: bool)
    | Rendered(row: nat, col: nat)

  /** A String object used as a column header: its characters and the
      object's identity. */
  datatype Label = Label(text: string, owner: Owner)

  datatype CellData = CellData(
    columnIndex: int,
    columnHeader: Option<Label>,
    rawData: Option<Value>,
    formattedData: Option<Value>,
    displayMask: Option<string>
  )

  /** The four-argument constructor: no display mask. */
  function NewCellData(columnIndex: int, columnHeader: Option<Label>, rawData: Option<Value>, formattedData: Option<Value>): (c: CellData)
    ensures c.displayMask == None
    ensures c.columnIndex == columnIndex && c.columnHeader == columnHeader
    ensures c.rawData == rawData && c.formattedData == formattedData
  {
    CellData(columnIndex, columnHeader, rawData, formattedData, None)
  }

  /** Java's `==` on two header references: both null, or the same object. */
  predicate SameObject(a: Option<Label>, b: Option<Label>) {
    match (a, b)
    case (None, None) => true
    case (Some(x), Some(y)) => x.owner == y.owner
    case _ => false
  }

  /** `equals(Object o)`, with `o` absent for null. The `this == o` shortcut
      needs no case of its own: an object equal to itself field by field is
      also caught by the field comparison. */
  function Equals(a: CellData, o: Option<CellData>): (r: bool)
    ensures o.None? ==> !r
    ensures o == Some(a) ==> r
  {
    match o
    case None => false
    case Some(b) =>
      && a.columnIndex == b.columnIndex
      && SameObject(a.columnHeader, b.columnHeader)
      && a.rawData == b.rawData
      && a.displayMask == b.displayMask
      && a.formattedData == b.formattedData
  }

  lemma EqualsSymmetric(a: CellData, b: CellData)
    ensures Equals(a, Some(b)) == Equals(b, Some(a))
  {
  }

  /** Equal records agree on index, raw data, mask and formatted data, and
      their headers are the same object. */
  lemma EqualsImpliesFields(a: CellData, b: CellData)
    requires Equals(a, Some(b))
    ensures a.columnIndex == b.columnIndex
    ensures a.rawData == b.rawData && a.displayMask == b.displayMask && a.formattedData == b.formattedData
    ensures a.columnHeader.None? <==> b.columnHeader.None?
    ensures a.columnHeader.Some? ==> a.columnHeader.value.owner == b.columnHeader.value.owner
  {
  }

  /** Two A1 names with the same text built for different cells are different
      objects, so `equals` tells the records apart although their headers
      read the same. */
  lemma HeaderComparedByIdentity(c: CellData, text: string)
    ensures var a := c.(columnHeader := Some(Label(text, CellNameOf(0, 0))));
            var b := c.(columnHeader := Some(Label(text, CellNameOf(1, 0))));
            !Equals(a, Some(b))
  {
  }

  const TwoTo31: int := 0x8000_0000
  const TwoTo32: int := 0x1_0000_0000

  /** Java `int` arithmetic: reduce modulo 2^32 into [-2^31, 2^31). */
  function Wrap32(x: int): (r: int)
    ensures -TwoTo31 <= r < TwoTo31
    ensures (x - r) % TwoTo32 == 0
  {
    (x + TwoTo31) % TwoTo32 - TwoTo31
  }

  /** `String.hashCode`: h = 31 * h + c over the characters, in `int`. */
  function StringHash(s: string): (h: int)
    ensures -TwoTo31 <= h < TwoTo31
    decreases |s|
  {
    if |s| == 0 then 0 else Wrap32(31 * StringHash(s[..|s| - 1]) + s[|s| - 1] as int)
  }

  function ValueHash(v: Value): int {
    match v
    case StringValue(t) => StringHash(t)
    case DoubleValue(t) => StringHash(t)
    case BooleanValue(b) => if b then 1231 else 1237
    case ByteValue(code) => code
    case DateValue(t) => StringHash(t)
  }

  function OptionHash<T>(o: Option<T>, hash: T -> int): int {
    match o
    case None => 0
    case Some(x) => hash(x)
  }

  /** `Objects.hash(rawData, displayMask, formattedData)`. */
  function FieldsHash(c: CellData): int {
    var h1 := Wrap32(31 * 1 + OptionHash(c.rawData, ValueHash));
    var h2 := Wrap32(31 * h1 + OptionHash(c.displayMask, StringHash));
    Wrap32(31 * h2 + OptionHash(c.formattedData, ValueHash))
  }

  /** `hashCode`: columnIndex + 31 * Objects.hash(rawData, displayMask, formattedData). */
  function HashCode(c: CellData): (h: int)
    ensures -TwoTo31 <= h < TwoTo31
  {
    Wrap32(c.columnIndex + 31 * FieldsHash(c))
  }

  /** The hash reads only fields `equals` compares, so equal records hash alike. */
  lemma EqualsImpliesSameHash(a: CellData, b: CellData)
    requires Equals(a, Some(b))
    ensures HashCode(a) == HashCode(b)
  {
  }

  /** The header does not take part in the hash. */
  lemma HashIgnoresHeader(c: CellData, h: Option<Label>)
    ensures HashCode(c.(columnHeader := h)) == HashCode(c)
  {
  }
}
