/** `DataProcessor`: checks a sheet's header row against the column
    mappings, turns every following non-empty row into an object, and
    reports failures with the row and sheet they happened in. */
module DataProcessor {
  import opened Results
  import opened Text
  import opened Cells
  import opened CellRecord
  import opened Decimals
  import opened DataReader
  import opened ImporterUtils
  import opened Mendix

  // ---------------------------------------------------------------------
  // getMendixTypeObject
  // ---------------------------------------------------------------------

  const Mismatch := "Mismatched data type found between excel cell and entity attribute."

  /** `BigDecimal(String)` refusing its text; the library composes the message. */
  const BadNumber := Failure(NumberFormat, "", None)

  /** `getMendixTypeObject`: the value an attribute of type `t` receives
      from a cell record. */
  function GetMendixTypeObject(t: PrimitiveType, cell: CellData): (r: Result<AttrValue>)
    ensures cell.formattedData.None? ==> r == Ok(Null)
    ensures cell.formattedData.Some? && (t.String? || t.Boolean? || t.DateTime?) ==>
              r == Ok(Passed(cell.formattedData.value))
    ensures cell.formattedData.Some? && t.Decimal? ==>
              var parsed := ParseDecimal(ValueText(cell.formattedData.value));
              && (r.Ok? <==> parsed.Some?)
              && (r.Ok? ==> r.value == DecimalValue(parsed.value))
              && (r.Err? ==> r.failure == BadNumber)
    ensures cell.formattedData.Some? && !(t.String? || t.Boolean? || t.DateTime? || t.Decimal?) ==>
              r == Ok(ReturnedError(Failure(ReaderError, Mismatch, None)))
  {
    match cell.formattedData
    case None => Ok(Null)
    case Some(f) =>
      match t
      case String => Ok(Passed(f))
      case Boolean => Ok(Passed(f))
      case DateTime => Ok(Passed(f))
      case Decimal =>
        (match ParseDecimal(ValueText(f))
         case None => Err(BadNumber)
         case Some(d) => Ok(DecimalValue(d)))
      case _ => Ok(ReturnedError(Failure(ReaderError, Mismatch, None)))
  }

  /** Only a decimal attribute can make the conversion throw. */
  lemma OnlyDecimalFails(t: PrimitiveType, cell: CellData)
    requires GetMendixTypeObject(t, cell).Err?
    ensures t.Decimal? && cell.formattedData.Some?
  {
  }

  /** A decimal attribute reads back the decimal whose plain text the cell shows. */
  lemma DecimalAttributeRoundTrip(d: BigDecimal, cell: CellData)
    requires 0 <= d.scale && IsJavaInt(d.scale)
    requires cell.formattedData == Some(StringValue(PlainString(d)))
    ensures GetMendixTypeObject(Decimal, cell) == Ok(DecimalValue(d))
  {
    PlainStringRoundTrip(d);
  }

  /** The text "1234.50" becomes 123450 at scale 2; "abc" is refused. */
  lemma DecimalAttributeExamples(cell: CellData)
    ensures GetMendixTypeObject(Decimal, cell.(formattedData := Some(StringValue("1234.50"))))
              == Ok(DecimalValue(BigDecimal(123450, 2)))
    ensures GetMendixTypeObject(Decimal, cell.(formattedData := Some(StringValue("abc")))) == Err(BadNumber)
  {
    ParseExample();
    RejectExamples();
  }

  // ---------------------------------------------------------------------
  // processRowData
  // ---------------------------------------------------------------------

  /** A `HashMap<String, T>` filled by `put` in order: the last element
      with a given key wins; elements without a key are never found by a
      lookup with a text key, so they are not stored. */
  function PutAll<T>(xs: seq<T>, key: T -> Option<string>): map<string, T>
    decreases |xs|
  {
    if |xs| == 0 then map[]
    else
      var last := xs[|xs| - 1];
      var init := PutAll(xs[..|xs| - 1], key);
      match key(last)
      case None => init
      case Some(k) => init[k := last]
  }

  /** A key is stored exactly when some element has it. */
  lemma {:induction false} PutAllKeys<T>(xs: seq<T>, key: T -> Option<string>)
    ensures forall k :: k in PutAll(xs, key) <==> exists i :: 0 <= i < |xs| && key(xs[i]) == Some(k)
    decreases |xs|
  {
    if |xs| > 0 {
      var init := xs[..|xs| - 1];
      PutAllKeys(init, key);
      assert forall i :: 0 <= i < |init| ==> init[i] == xs[i];
    }
  }

  /** The element stored under a key is the last one that has it. */
  lemma {:induction false} PutAllLast<T>(xs: seq<T>, key: T -> Option<string>, i: nat)
    requires i < |xs| && key(xs[i]).Some?
    requires forall j :: i < j < |xs| ==> key(xs[j]) != key(xs[i])
    ensures key(xs[i]).value in PutAll(xs, key)
    ensures PutAll(xs, key)[key(xs[i]).value] == xs[i]
    decreases |xs|
  {
    if i < |xs| - 1 {
      var init := xs[..|xs| - 1];
      assert init[i] == xs[i];
      PutAllLast(init, key, i);
    }
  }

  /** `cellDataMap` is keyed by the text of each record's column header. */
  function HeaderKey(e: CellData): Option<string> {
    match e.columnHeader
    case None => None
    case Some(h) => Some(h.text)
  }

  /** `metaPrimitiveMap` is keyed by the attribute's name. */
  function NameKey(a: Attribute): Option<string> {
    Some(a.name)
  }

  function Attributes(ms: seq<ColumnMapping>): (attrs: seq<Attribute>)
    ensures |attrs| == |ms| && forall i :: 0 <= i < |ms| ==> attrs[i] == ms[i].attribute
  {
    seq(|ms|, i requires 0 <= i < |ms| => ms[i].attribute)
  }

  /** The setter loop of `processRowData`, mapping by mapping in order:
      a mapping whose column is in the row sets its attribute (a later
      mapping to the same attribute overwrites), converting with the type
      recorded for that attribute name. */
  function Assign(ms: seq<ColumnMapping>, cells: map<string, CellData>, metas: map<string, Attribute>): (r: Result<map<string, AttrValue>>)
    requires forall i :: 0 <= i < |ms| ==> ms[i].attribute.name in metas
    ensures r.Err? ==> r.failure == BadNumber
    decreases |ms|
  {
    if |ms| == 0 then Ok(map[])
    else
      var acc :- Assign(ms[..|ms| - 1], cells, metas);
      var m := ms[|ms| - 1];
      if m.columnName in cells then
        var v :- GetMendixTypeObject(metas[m.attribute.name].primitiveType, cells[m.columnName]);
        Ok(acc[m.attribute.name := v])
      else Ok(acc)
  }

  /** The attributes set are exactly those of the mappings whose column is present. */
  lemma {:induction false} AssignKeys(ms: seq<ColumnMapping>, cells: map<string, CellData>, metas: map<string, Attribute>)
    requires forall i :: 0 <= i < |ms| ==> ms[i].attribute.name in metas
    requires Assign(ms, cells, metas).Ok?
    ensures forall a :: a in Assign(ms, cells, metas).value <==>
              exists i :: 0 <= i < |ms| && ms[i].columnName in cells && ms[i].attribute.name == a
    decreases |ms|
  {
    if |ms| > 0 {
      var init := ms[..|ms| - 1];
      AssignKeys(init, cells, metas);
      assert forall i :: 0 <= i < |init| ==> init[i] == ms[i];
    }
  }

  /** An attribute holds the value of the last mapping that set it. */
  lemma {:induction false} AssignLast(ms: seq<ColumnMapping>, cells: map<string, CellData>, metas: map<string, Attribute>, i: nat)
    requires forall j :: 0 <= j < |ms| ==> ms[j].attribute.name in metas
    requires Assign(ms, cells, metas).Ok?
    requires i < |ms| && ms[i].columnName in cells
    requires forall j :: i < j < |ms| ==> !(ms[j].columnName in cells && ms[j].attribute.name == ms[i].attribute.name)
    ensures var a := ms[i].attribute.name;
            var v := GetMendixTypeObject(metas[a].primitiveType, cells[ms[i].columnName]);
            && v.Ok?
            && a in Assign(ms, cells, metas).value
            && Assign(ms, cells, metas).value[a] == v.value
    decreases |ms|
  {
    var init, m := ms[..|ms| - 1], ms[|ms| - 1];
    assert forall j :: 0 <= j < |init| ==> init[j] == ms[j];
    var prev := Assign(init, cells, metas);
    assert prev.Ok?;
    if i < |ms| - 1 {
      AssignLast(init, cells, metas, i);
      assert !(m.columnName in cells && m.attribute.name == ms[i].attribute.name);
    } else {
      assert m == ms[i];
    }
  }

  /** Mapping `m` finds its column in the row and converting the value fails. */
  predicate ConversionFails(m: ColumnMapping, cells: map<string, CellData>, metas: map<string, Attribute>)
    requires m.attribute.name in metas
  {
    m.columnName in cells && GetMendixTypeObject(metas[m.attribute.name].primitiveType, cells[m.columnName]).Err?
  }

  /** One step of the setter loop: it fails when the earlier mappings
      failed, and otherwise exactly when the last mapping's conversion fails. */
  lemma AssignStep(ms: seq<ColumnMapping>, cells: map<string, CellData>, metas: map<string, Attribute>)
    requires |ms| > 0 && forall i :: 0 <= i < |ms| ==> ms[i].attribute.name in metas
    ensures Assign(ms[..|ms| - 1], cells, metas).Err? ==> Assign(ms, cells, metas).Err?
    ensures Assign(ms[..|ms| - 1], cells, metas).Ok? ==>
              (Assign(ms, cells, metas).Err? <==> ConversionFails(ms[|ms| - 1], cells, metas))
  {
  }

  /** Some element of `init + [last]` satisfies `p` exactly when one of
      `init` does or `last` does. */
  lemma {:induction false} ExistsSnoc<T>(s: seq<T>, init: seq<T>, p: T -> bool)
    requires |s| > 0 && init == s[..|s| - 1]
    ensures (exists i :: 0 <= i < |s| && p(s[i])) <==> (exists i :: 0 <= i < |init| && p(init[i])) || p(s[|s| - 1])
  {
    if exists i :: 0 <= i < |s| && p(s[i]) {
      var i :| 0 <= i < |s| && p(s[i]);
      if i < |init| { assert init[i] == s[i]; }
    }
    if exists i :: 0 <= i < |init| && p(init[i]) {
      var i :| 0 <= i < |init| && p(init[i]);
      assert init[i] == s[i];
    }
  }

  /** The setter loop fails exactly when converting the value of some
      mapping whose column is present fails. */
  lemma {:induction false} AssignFailsIff(ms: seq<ColumnMapping>, cells: map<string, CellData>, metas: map<string, Attribute>)
    requires forall i :: 0 <= i < |ms| ==> ms[i].attribute.name in metas
    ensures Assign(ms, cells, metas).Err? <==> exists i :: 0 <= i < |ms| && ConversionFails(ms[i], cells, metas)
    decreases |ms|
  {
    if |ms| > 0 {
      var init := ms[..|ms| - 1];
      assert forall j :: 0 <= j < |init| ==> init[j] == ms[j];
      AssignFailsIff(init, cells, metas);
      AssignStep(ms, cells, metas);
      var p := (m: ColumnMapping) => m.attribute.name in metas && ConversionFails(m, cells, metas);
      ExistsSnoc(ms, init, p);
      assert forall i :: 0 <= i < |ms| ==> (p(ms[i]) <==> ConversionFails(ms[i], cells, metas));
      assert forall i :: 0 <= i < |init| ==> (p(init[i]) <==> ConversionFails(init[i], cells, metas));
    }
  }

  const NoFirstMapping := "Index 0 out of bounds for length 0"

  /** `processRowData`: the object for one row. The entity is that of the
      first mapping's attribute, so an empty mapping list fails. */
  function ProcessRowData(row: seq<CellData>, ms: seq<ColumnMapping>): (r: Result<Record>)
    ensures |ms| == 0 ==> r == Raise(IndexOutOfBounds, NoFirstMapping)
    ensures |ms| > 0 && r.Ok? ==> r.value.entity == ms[0].attribute.entity
    ensures |ms| > 0 && r.Err? ==> r.failure == BadNumber
  {
    var metas := PutAll(Attributes(ms), NameKey);
    var cells := PutAll(row, HeaderKey);
    if |ms| == 0 then Raise(IndexOutOfBounds, NoFirstMapping)
    else
      PutAllKeys(Attributes(ms), NameKey);
      assert forall i :: 0 <= i < |ms| ==> NameKey(Attributes(ms)[i]) == Some(ms[i].attribute.name);
      var attributes :- Assign(ms, cells, metas);
      Ok(Record(ms[0].attribute.entity, attributes))
  }

  /** Some record of the row carries the column name as its header. */
  predicate ColumnPresent(row: seq<CellData>, column: string) {
    exists k :: 0 <= k < |row| && HeaderKey(row[k]) == Some(column)
  }

  /** Without mappings there is no entity to create. */
  lemma ProcessRowDataNeedsMapping(row: seq<CellData>)
    ensures ProcessRowData(row, []) == Raise(IndexOutOfBounds, NoFirstMapping)
  {
  }

  /** The object is of the first mapping's entity, and its attributes set
      are exactly those of the mappings whose column name is some record's
      header. */
  lemma ProcessRowDataKeys(row: seq<CellData>, ms: seq<ColumnMapping>)
    requires ProcessRowData(row, ms).Ok?
    ensures |ms| > 0 && ProcessRowData(row, ms).value.entity == ms[0].attribute.entity
    ensures forall a :: a in ProcessRowData(row, ms).value.attributes <==>
              exists i :: 0 <= i < |ms| && ColumnPresent(row, ms[i].columnName) && ms[i].attribute.name == a
  {
    var metas := PutAll(Attributes(ms), NameKey);
    var cells := PutAll(row, HeaderKey);
    PutAllKeys(Attributes(ms), NameKey);
    PutAllKeys(row, HeaderKey);
    assert forall i :: 0 <= i < |ms| ==> NameKey(Attributes(ms)[i]) == Some(ms[i].attribute.name);
    AssignKeys(ms, cells, metas);
    assert forall c :: c in cells <==> ColumnPresent(row, c);
  }

  /** The value of an attribute comes from the last mapping that sets it,
      read from the last record under that mapping's column, and converted
      with the type of the last mapping naming that attribute. */
  lemma ProcessRowDataValue(row: seq<CellData>, ms: seq<ColumnMapping>, i: nat, k: nat, p: nat)
    requires ProcessRowData(row, ms).Ok?
    requires i < |ms| && ColumnPresent(row, ms[i].columnName)
    requires forall j :: i < j < |ms| ==>
               !(ColumnPresent(row, ms[j].columnName) && ms[j].attribute.name == ms[i].attribute.name)
    requires k < |row| && HeaderKey(row[k]) == Some(ms[i].columnName)
    requires forall j :: k < j < |row| ==> HeaderKey(row[j]) != Some(ms[i].columnName)
    requires p < |ms| && ms[p].attribute.name == ms[i].attribute.name
    requires forall j :: p < j < |ms| ==> ms[j].attribute.name != ms[i].attribute.name
    ensures var a := ms[i].attribute.name;
            var v := GetMendixTypeObject(ms[p].attribute.primitiveType, row[k]);
            && v.Ok?
            && a in ProcessRowData(row, ms).value.attributes
            && ProcessRowData(row, ms).value.attributes[a] == v.value
  {
    var attrs := Attributes(ms);
    var metas := PutAll(attrs, NameKey);
    var cells := PutAll(row, HeaderKey);
    PutAllKeys(attrs, NameKey);
    PutAllKeys(row, HeaderKey);
    assert forall j :: 0 <= j < |ms| ==> NameKey(attrs[j]) == Some(ms[j].attribute.name);
    assert forall c :: c in cells <==> ColumnPresent(row, c);
    PutAllLast(row, HeaderKey, k);
    PutAllLast(attrs, NameKey, p);
    AssignLast(ms, cells, metas, i);
  }

  /** A row converts without failure when no mapped attribute is a decimal. */
  lemma ProcessRowDataWithoutDecimals(row: seq<CellData>, ms: seq<ColumnMapping>)
    requires |ms| > 0
    requires forall i :: 0 <= i < |ms| ==> !ms[i].attribute.primitiveType.Decimal?
    ensures ProcessRowData(row, ms).Ok?
  {
    var attrs := Attributes(ms);
    var metas := PutAll(attrs, NameKey);
    var cells := PutAll(row, HeaderKey);
    PutAllKeys(attrs, NameKey);
    assert forall j :: 0 <= j < |ms| ==> NameKey(attrs[j]) == Some(ms[j].attribute.name);
    forall i | 0 <= i < |ms|
      ensures !metas[ms[i].attribute.name].primitiveType.Decimal?
    {
      MetaIsSomeAttribute(attrs, ms[i].attribute.name);
    }
    AssignFailsIff(ms, cells, metas);
  }

  /** Whatever is stored under a name is one of the elements. */
  lemma MetaIsSomeAttribute(attrs: seq<Attribute>, name: string)
    requires name in PutAll(attrs, NameKey)
    ensures PutAll(attrs, NameKey)[name] in attrs
  {
    PutAllKeys(attrs, NameKey);
    var i :| 0 <= i < |attrs| && NameKey(attrs[i]) == Some(name);
    var last := LastWithName(attrs, name, i);
    PutAllLast(attrs, NameKey, last);
  }

  /** The position of the last attribute with a name, given one that has it. */
  ghost function LastWithName(attrs: seq<Attribute>, name: string, i: nat): (p: nat)
    requires i < |attrs| && attrs[i].name == name
    ensures p < |attrs| && attrs[p].name == name
    ensures forall j :: p < j < |attrs| ==> attrs[j].name != name
    decreases |attrs| - i
  {
    if forall j :: i < j < |attrs| ==> attrs[j].name != name then i
    else
      var j :| i < j < |attrs| && attrs[j].name == name;
      LastWithName(attrs, name, j)
  }

  // ---------------------------------------------------------------------
  // readExcelRow and the row loop of parseData
  // ---------------------------------------------------------------------

  /** What one call of `readExcelRow` gives: the next row number and the
      object appended to the imported list, if any. */
  datatype RowStep = RowStep(next: int, record: Option<Record>)

  /** The message of the error a failing row is re-raised as; the sheet
      name is preceded by two spaces, as the constants concatenate. */
  function RowError(rowNo: int, sheetName: Option<string>): string {
    "Unable to import sheet row '" + IntToString(rowNo) + "' from sheet  '" + JavaText(sheetName) + "'"
  }

  /** `readExcelRow`: reads row `rowNo`; a row with no record in a header
      column appends nothing, any other row appends its object; any failure
      is re-raised naming the row and the sheet. */
  function ReadExcelRow(r: Reader, ms: seq<ColumnMapping>, header: seq<CellData>, rowNo: int,
                        sheetName: Option<string>, richText: string -> string): (res: Result<RowStep>)
    ensures res.Ok? ==> res.value.next == rowNo + 1
    ensures res.Ok? ==> ReadDataRow(r, rowNo, header, richText).Ok?
    ensures res.Ok? ==> (res.value.record.None? <==> |ReadDataRow(r, rowNo, header, richText).value| == 0)
    ensures res.Ok? && res.value.record.Some? ==>
              ProcessRowData(ReadDataRow(r, rowNo, header, richText).value, ms) == Ok(res.value.record.value)
    ensures res.Err? ==> res.failure.kind == ReaderError && res.failure.message == RowError(rowNo, sheetName)
    ensures res.Err? ==> res.failure.cause.Some?
    ensures res.Err? <==>
              || ReadDataRow(r, rowNo, header, richText).Err?
              || (|ReadDataRow(r, rowNo, header, richText).value| > 0
                  && ProcessRowData(ReadDataRow(r, rowNo, header, richText).value, ms).Err?)
  {
    match ReadDataRow(r, rowNo, header, richText)
    case Err(f) => Err(Wrap(ReaderError, RowError(rowNo, sheetName), f))
    case Ok(row) =>
      if |row| == 0 then Ok(RowStep(rowNo + 1, None))
      else match ProcessRowData(row, ms)
        case Err(f) => Err(Wrap(ReaderError, RowError(rowNo, sheetName), f))
        case Ok(record) => Ok(RowStep(rowNo + 1, Some(record)))
  }

  const RowErrorHead := "Unable to import sheet row '"
  const RowErrorMiddle := "' from sheet  '"

  /** Equal texts after a common prefix are equal. */
  lemma StripPrefix(h: string, a: string, b: string)
    requires h + a == h + b
    ensures a == b
  {
    assert a == (h + a)[|h|..];
    assert b == (h + b)[|h|..];
  }

  /** Text without a quote ends where the first quote of what follows starts. */
  lemma SplitAtQuote(t1: string, rest1: string, t2: string, rest2: string)
    requires forall k :: 0 <= k < |t1| ==> t1[k] != '\''
    requires forall k :: 0 <= k < |t2| ==> t2[k] != '\''
    requires |rest1| > 0 && rest1[0] == '\'' && |rest2| > 0 && rest2[0] == '\''
    requires t1 + rest1 == t2 + rest2
    ensures t1 == t2 && rest1 == rest2
  {
    var u := t1 + rest1;
    assert u[|t1|] == '\'';
    assert u[|t2|] == '\'';
    assert |t1| == |t2|;
    assert t1 == u[..|t1|];
    assert t2 == u[..|t2|];
    assert rest1 == u[|t1|..];
  }

  lemma RowErrorShape(n: int, name: Option<string>)
    ensures RowError(n, name) == RowErrorHead + (IntToString(n) + (RowErrorMiddle + (JavaText(name) + "'")))
  {
  }

  /** The row error message determines the row number and the sheet name's text. */
  lemma RowErrorDecodes(n1: int, s1: Option<string>, n2: int, s2: Option<string>)
    requires RowError(n1, s1) == RowError(n2, s2)
    ensures n1 == n2 && JavaText(s1) == JavaText(s2)
  {
    var t1, t2 := IntToString(n1), IntToString(n2);
    var rest1 := RowErrorMiddle + (JavaText(s1) + "'");
    var rest2 := RowErrorMiddle + (JavaText(s2) + "'");
    RowErrorShape(n1, s1);
    RowErrorShape(n2, s2);
    StripPrefix(RowErrorHead, t1 + rest1, t2 + rest2);
    assert rest1[0] == '\'' && rest2[0] == '\'';
    SplitAtQuote(t1, rest1, t2, rest2);
    IntToStringRoundTrip(n1);
    IntToStringRoundTrip(n2);
    StripPrefix(RowErrorMiddle, JavaText(s1) + "'", JavaText(s2) + "'");
    assert JavaText(s1) == (JavaText(s1) + "'")[..|JavaText(s1) + "'"| - 1];
    assert JavaText(s2) == (JavaText(s2) + "'")[..|JavaText(s2) + "'"| - 1];
  }

  /** The row numbers the sheet has at and after `n`. */
  function RowsFrom(s: DataReader.Sheet, n: int): set<int> {
    set k | k in s.rows && k >= n
  }

  lemma RowsFromShrinks(s: DataReader.Sheet, n: int)
    requires n in s.rows
    ensures |RowsFrom(s, n + 1)| < |RowsFrom(s, n)|
  {
    assert RowsFrom(s, n) == RowsFrom(s, n + 1) + {n};
    assert n !in RowsFrom(s, n + 1);
  }

  /** The consecutive row numbers the sheet has from `n` on, up to the
      first one it lacks. */
  function Run(s: DataReader.Sheet, n: int): (run: seq<int>)
    ensures forall i :: 0 <= i < |run| ==> run[i] == n + i && run[i] in s.rows
    ensures n + |run| !in s.rows
    decreases |RowsFrom(s, n)|
  {
    if n in s.rows then
      RowsFromShrinks(s, n);
      [n] + Run(s, n + 1)
    else []
  }

  /** The records appended so far and the failure that ended the import,
      if one did. Records appended before a failure stay in the caller's
      list, as the list is filled in place. */
  datatype Progress = Progress(records: seq<Record>, failure: Option<Failure>)

  function Then(step: RowStep, rest: Progress): Progress {
    Progress((if step.record.Some? then [step.record.value] else []) + rest.records, rest.failure)
  }

  /** The `while (hasNextRow(n))` loop of `parseData`: without an open sheet
      the first check dereferences null; otherwise each row it reads adds at
      most one object, and a failure comes from a row. */
  function RowLoop(r: Reader, ms: seq<ColumnMapping>, header: seq<CellData>, rowNo: int,
                   sheetName: Option<string>, richText: string -> string): (p: Progress)
    ensures r.sheet.None? ==> p == Progress([], Some(NullDereference))
    ensures r.sheet.Some? ==> |p.records| <= |RowsFrom(r.sheet.value, rowNo)|
    ensures r.sheet.Some? && p.failure.Some? ==> p.failure.value.kind == ReaderError
    decreases if r.sheet.Some? then |RowsFrom(r.sheet.value, rowNo)| else 0
  {
    match HasNextRow(r, rowNo)
    case Err(f) => Progress([], Some(f))
    case Ok(more) =>
      if !more then Progress([], None)
      else match ReadExcelRow(r, ms, header, rowNo, sheetName, richText)
        case Err(f) => Progress([], Some(f))
        case Ok(step) =>
          RowsFromShrinks(r.sheet.value, rowNo);
          Then(step, RowLoop(r, ms, header, step.next, sheetName, richText))
  }

  /** The rows of `rowNos`, read in order until one fails. */
  function ImportRows(r: Reader, ms: seq<ColumnMapping>, header: seq<CellData>, rowNos: seq<int>,
                      sheetName: Option<string>, richText: string -> string): Progress
    decreases |rowNos|
  {
    if |rowNos| == 0 then Progress([], None)
    else match ReadExcelRow(r, ms, header, rowNos[0], sheetName, richText)
      case Err(f) => Progress([], Some(f))
      case Ok(step) => Then(step, ImportRows(r, ms, header, rowNos[1..], sheetName, richText))
  }

  /** The loop reads exactly the consecutive rows from its start up to the
      first row the sheet lacks; rows after that gap are never read. */
  lemma {:induction false} RowLoopReadsRun(r: Reader, ms: seq<ColumnMapping>, header: seq<CellData>, rowNo: int,
                                           sheetName: Option<string>, richText: string -> string)
    requires r.sheet.Some?
    ensures RowLoop(r, ms, header, rowNo, sheetName, richText)
              == ImportRows(r, ms, header, Run(r.sheet.value, rowNo), sheetName, richText)
    decreases |RowsFrom(r.sheet.value, rowNo)|
  {
    var s := r.sheet.value;
    if rowNo in s.rows {
      RowsFromShrinks(s, rowNo);
      var run := Run(s, rowNo);
      assert run[1..] == Run(s, rowNo + 1);
      RowLoopReadsRun(r, ms, header, rowNo + 1, sheetName, richText);
      var step := ReadExcelRow(r, ms, header, rowNo, sheetName, richText);
      if step.Ok? {
        assert RowLoop(r, ms, header, rowNo, sheetName, richText)
                 == Then(step.value, RowLoop(r, ms, header, rowNo + 1, sheetName, richText));
        assert ImportRows(r, ms, header, run, sheetName, richText)
                 == Then(step.value, ImportRows(r, ms, header, run[1..], sheetName, richText));
      }
    }
  }

  /** How many of the rows read into a non-empty list. */
  function NonEmptyRows(r: Reader, header: seq<CellData>, rowNos: seq<int>, richText: string -> string): nat
    decreases |rowNos|
  {
    if |rowNos| == 0 then 0
    else
      var row := ReadDataRow(r, rowNos[0], header, richText);
      (if row.Ok? && |row.value| > 0 then 1 else 0) + NonEmptyRows(r, header, rowNos[1..], richText)
  }

  /** Without a failure every non-empty row appends one object and every
      empty row none; with one, the failure names a row that was read, and
      only rows before it have appended. */
  lemma {:induction false} ImportRowsCount(r: Reader, ms: seq<ColumnMapping>, header: seq<CellData>, rowNos: seq<int>,
                                           sheetName: Option<string>, richText: string -> string)
    ensures var p := ImportRows(r, ms, header, rowNos, sheetName, richText);
            && |p.records| <= |rowNos|
            && (p.failure.None? ==> |p.records| == NonEmptyRows(r, header, rowNos, richText))
            && (p.failure.Some? ==>
                  && p.failure.value.kind == ReaderError
                  && exists i :: 0 <= i < |rowNos| && p.failure.value.message == RowError(rowNos[i], sheetName) && |p.records| <= i)
    decreases |rowNos|
  {
    if |rowNos| > 0 {
      var tail := rowNos[1..];
      ImportRowsCount(r, ms, header, tail, sheetName, richText);
      var p := ImportRows(r, ms, header, rowNos, sheetName, richText);
      var step := ReadExcelRow(r, ms, header, rowNos[0], sheetName, richText);
      if step.Err? {
        assert p.failure.value.message == RowError(rowNos[0], sheetName);
      } else {
        var q := ImportRows(r, ms, header, tail, sheetName, richText);
        if q.failure.Some? {
          var i :| 0 <= i < |tail| && q.failure.value.message == RowError(tail[i], sheetName) && |q.records| <= i;
          assert tail[i] == rowNos[i + 1];
        }
      }
    }
  }

  /** The object row `rowNo` turns into: none when its read list is empty
      or it cannot be read or processed. */
  function RowObjects(r: Reader, ms: seq<ColumnMapping>, header: seq<CellData>, rowNo: int,
                      richText: string -> string): (objects: seq<Record>)
    ensures |objects| <= 1
  {
    var row := ReadDataRow(r, rowNo, header, richText);
    if row.Err? || |row.value| == 0 then []
    else match ProcessRowData(row.value, ms)
      case Ok(record) => [record]
      case Err(_) => []
  }

  /** The objects the rows of `rowNos` turn into, in row order. */
  function Appended(r: Reader, ms: seq<ColumnMapping>, header: seq<CellData>, rowNos: seq<int>,
                    richText: string -> string): seq<Record>
    decreases |rowNos|
  {
    if |rowNos| == 0 then []
    else RowObjects(r, ms, header, rowNos[0], richText) + Appended(r, ms, header, rowNos[1..], richText)
  }

  /** A row read without failure appends exactly its object. */
  lemma ReadExcelRowObjects(r: Reader, ms: seq<ColumnMapping>, header: seq<CellData>, rowNo: int,
                            sheetName: Option<string>, richText: string -> string)
    requires ReadExcelRow(r, ms, header, rowNo, sheetName, richText).Ok?
    ensures var step := ReadExcelRow(r, ms, header, rowNo, sheetName, richText).value;
            (if step.record.Some? then [step.record.value] else []) == RowObjects(r, ms, header, rowNo, richText)
  {
  }

  /** The loop appends the rows' objects in row order: all of them when no
      row fails, and those of the rows before the failing one otherwise. */
  lemma {:induction false} ImportRowsAppends(r: Reader, ms: seq<ColumnMapping>, header: seq<CellData>, rowNos: seq<int>,
                                             sheetName: Option<string>, richText: string -> string)
    ensures var p := ImportRows(r, ms, header, rowNos, sheetName, richText);
            var all := Appended(r, ms, header, rowNos, richText);
            && |p.records| <= |all|
            && p.records == all[..|p.records|]
            && (p.failure.None? ==> p.records == all)
    decreases |rowNos|
  {
    if |rowNos| > 0 {
      var tail := rowNos[1..];
      ImportRowsAppends(r, ms, header, tail, sheetName, richText);
      if ReadExcelRow(r, ms, header, rowNos[0], sheetName, richText).Ok? {
        ImportRowsCons(r, ms, header, rowNos, sheetName, richText);
        var head := RowObjects(r, ms, header, rowNos[0], richText);
        var q := ImportRows(r, ms, header, tail, sheetName, richText);
        var rest := Appended(r, ms, header, tail, richText);
        assert (head + rest)[..|head + q.records|] == head + rest[..|q.records|];
      }
    }
  }

  /** After a row read without failure, the loop and the objects both
      continue with the remaining rows. */
  lemma {:induction false} ImportRowsCons(r: Reader, ms: seq<ColumnMapping>, header: seq<CellData>, rowNos: seq<int>,
                                          sheetName: Option<string>, richText: string -> string)
    requires |rowNos| > 0 && ReadExcelRow(r, ms, header, rowNos[0], sheetName, richText).Ok?
    ensures ImportRows(r, ms, header, rowNos, sheetName, richText)
              == Progress(RowObjects(r, ms, header, rowNos[0], richText)
                            + ImportRows(r, ms, header, rowNos[1..], sheetName, richText).records,
                          ImportRows(r, ms, header, rowNos[1..], sheetName, richText).failure)
    ensures Appended(r, ms, header, rowNos, richText)
              == RowObjects(r, ms, header, rowNos[0], richText) + Appended(r, ms, header, rowNos[1..], richText)
  {
    ReadExcelRowObjects(r, ms, header, rowNos[0], sheetName, richText);
  }

  // ---------------------------------------------------------------------
  // parseData
  // ---------------------------------------------------------------------

  function NoColumns(sheetName: Option<string>): string {
    "No column information could be found in sheet: '" + JavaText(sheetName) + "'"
  }

  function ColumnNotFound(column: string, sheetName: Option<string>): string {
    "column with a name: '" + column + "' is not found in sheet: '" + JavaText(sheetName) + "'"
  }

  /** `headerColumnNames`: the text of every header record's formatted
      data, untrimmed; a record without formatted data is a null dereference. */
  function HeaderNames(header: seq<CellData>): (r: Result<set<string>>)
    ensures r.Ok? <==> HeaderFormatted(header)
    ensures r.Ok? ==> forall t :: t in r.value <==> exists i :: 0 <= i < |header| && ValueText(header[i].formattedData.value) == t
    ensures r.Err? ==> r.failure == NullDereference
  {
    if HeaderFormatted(header) then Ok(set i | 0 <= i < |header| :: ValueText(header[i].formattedData.value))
    else Err(NullDereference)
  }

  /** A one-record header row whose record holds the String `t` has the
      one name `t`. */
  lemma SingleHeaderName(e: CellData, t: string)
    requires e.formattedData == Some(StringValue(t))
    ensures HeaderNames([e]) == Ok({t})
  {
    var names := HeaderNames([e]).value;
    assert t in names by { assert ValueText([e][0].formattedData.value) == t; }
    assert names == {t};
  }

  /** A formula cell of the header row with no cached result is named by
      its formula text, trimmed. */
  lemma FormulaHeaderName(cell: Cell, richText: string -> string)
    requires cell.cellType.FORMULA? && cell.cachedType.None?
    ensures HeaderCell(cell, richText).Some?
    ensures HeaderNames([HeaderCell(cell, richText).value]) == Ok({Trim(cell.formula)})
  {
    var e := HeaderCell(cell, richText).value;
    SingleHeaderName(e, Trim(cell.formula));
  }

  /** One space on each side of a text that starts and ends above U+0020
      is what `trim` removes. */
  lemma {:induction false} TrimPadded(t: string)
    requires |t| > 0 && !IsTrimmable(t[0]) && !IsTrimmable(t[|t| - 1])
    ensures Trim(" " + t + " ") == t
  {
    var s := " " + t + " ";
    assert s[1..] == t + " " && s[1] == t[0];
    assert TrimStart(s[1..]) == s[1..];
    assert TrimStart(s) == s[1..];
    var r := Trim(s);
    assert s[|t|] == t[|t| - 1];
    assert |r| == |t|;
    assert r == s[1..|t| + 1] == t;
  }

  /** A formula header cell whose text is a name with one space on each
      side (" Name ") is found by a mapping to that name ("Name"): the
      header row's text is trimmed before it is named. */
  lemma PaddedFormulaHeaderName(cell: Cell, richText: string -> string, name: string)
    requires cell.cellType.FORMULA? && cell.cachedType.None?
    requires |name| > 0 && !IsTrimmable(name[0]) && !IsTrimmable(name[|name| - 1])
    requires cell.formula == " " + name + " "
    ensures HeaderCell(cell, richText).Some?
    ensures HeaderNames([HeaderCell(cell, richText).value]) == Ok({name})
  {
    FormulaHeaderName(cell, richText);
    TrimPadded(name);
  }

  /** The first mapping whose column name is not among the header names, or `|ms|`. */
  function FirstMissing(ms: seq<ColumnMapping>, names: set<string>): (k: nat)
    ensures k <= |ms|
    ensures k < |ms| ==> ms[k].columnName !in names
    ensures forall j :: 0 <= j < k ==> ms[j].columnName in names
    decreases |ms|
  {
    if |ms| == 0 || ms[0].columnName !in names then 0 else 1 + FirstMissing(ms[1..], names)
  }

  /** The checks `parseData` makes on the header row before reading data:
      the exception they raise, or None when every mapped column is a
      header name. */
  function HeaderCheck(header: seq<CellData>, sheetName: Option<string>, ms: seq<ColumnMapping>): (f: Option<Failure>)
    ensures |header| == 0 ==> f == Some(Failure(RuntimeError, NoColumns(sheetName), None))
    ensures |header| > 0 && !HeaderFormatted(header) ==> f == Some(NullDereference)
    ensures f.None? <==>
      && |header| > 0 && HeaderFormatted(header)
      && forall i :: 0 <= i < |ms| ==> ms[i].columnName in HeaderNames(header).value
  {
    if |header| == 0 then Some(Failure(RuntimeError, NoColumns(sheetName), None))
    else match HeaderNames(header)
      case Err(f) => Some(f)
      case Ok(names) =>
        var k := FirstMissing(ms, names);
        if k < |ms| then Some(Failure(RuntimeError, ColumnNotFound(ms[k].columnName, sheetName), None))
        else None
  }

  /** `parseData` after the header row is read: the header checks, then the
      row loop from the data start. No row is read unless the header is
      non-empty and names every mapped column. */
  function CheckHeader(withSheet: Reader, header: seq<CellData>, sheet: SheetMapping, ms: seq<ColumnMapping>,
                       richText: string -> string): (p: Progress)
    ensures |header| == 0 ==> p == Progress([], Some(Failure(RuntimeError, NoColumns(sheet.sheetName), None)))
    ensures |header| > 0 && !HeaderFormatted(header) ==> p == Progress([], Some(NullDereference))
    ensures p.records != [] ==>
      && |header| > 0 && HeaderFormatted(header)
      && forall i :: 0 <= i < |ms| ==> ms[i].columnName in HeaderNames(header).value
    ensures HeaderCheck(header, sheet.sheetName, ms) == None ==>
      p == RowLoop(withSheet, ms, header, sheet.dataRowStartsAt - 1, sheet.sheetName, richText)
  {
    match HeaderCheck(header, sheet.sheetName, ms)
    case Some(f) => Progress([], Some(f))
    case None => RowLoop(withSheet, ms, header, sheet.dataRowStartsAt - 1, sheet.sheetName, richText)
  }

  /** The body of `parseData`'s try block on an opened reader: the progress
      made and the reader's state when the block is left. */
  function ParseSheet(r: Reader, sheet: SheetMapping, ms: seq<ColumnMapping>, richText: string -> string): (res: (Progress, Reader))
    ensures res.1.workbook == r.workbook && res.1.workbookCloses == r.workbookCloses
  {
    match OpenSheet(r, sheet.sheetName)
    case Err(f) => (Progress([], Some(f)), r)
    case Ok(withSheet) =>
      match ReadHeaderRow(withSheet, sheet.headerRowStartsAt - 1, richText)
      case Err(f) => (Progress([], Some(f)), withSheet)
      case Ok(header) => (CheckHeader(withSheet, header, sheet, ms, richText), withSheet)
  }

  /** The outcome of `parseData` for one sheet: what it appended, the
      failure it threw, and the reader's final state (absent when the reader
      could not be constructed). */
  datatype SheetOutcome = SheetOutcome(records: seq<Record>, failure: Option<Failure>, reader: Option<Reader>)

  /** How `parseData` reports any failure: as a new importer runtime failure
      carrying the same message, with the original failure as its cause. */
  function Rethrow(f: Failure): Failure {
    Wrap(RuntimeError, f.message, f)
  }

  /** `parseData`: the reader is a try-with-resources resource, so it is
      closed on every path once constructed, and every exception leaves
      as a DataImporterRuntimeException with the same message. */
  function ParseData(file: Option<ExcelFile>, sheet: SheetMapping, ms: seq<ColumnMapping>, richText: string -> string): (out: SheetOutcome)
    ensures out.reader.Some? <==> OpenReader(file).Ok?
    ensures out.reader.Some? ==> out.reader.value.workbook.None? && out.reader.value.workbookCloses == 1
    ensures out.failure.Some? ==>
      && out.failure.value.kind == RuntimeError
      && out.failure.value.cause.Some?
      && out.failure.value.message == out.failure.value.cause.value.message
    ensures OpenReader(file).Err? ==> out == SheetOutcome([], Some(Rethrow(OpenReader(file).failure)), None)
  {
    match OpenReader(file)
    case Err(f) => SheetOutcome([], Some(Rethrow(f)), None)
    case Ok(r) =>
      var (progress, last) := ParseSheet(r, sheet, ms, richText);
      var failure := match progress.failure
        case None => None
        case Some(f) => Some(Rethrow(f));
      SheetOutcome(progress.records, failure, Some(Close(last)))
  }

  /** An empty header row stops the sheet before any row is read. */
  lemma EmptyHeaderStops(withSheet: Reader, sheet: SheetMapping, ms: seq<ColumnMapping>, richText: string -> string)
    ensures CheckHeader(withSheet, [], sheet, ms, richText) == Progress([], Some(Failure(RuntimeError, NoColumns(sheet.sheetName), None)))
  {
  }

  /** The first mapping whose column is not a header name stops the sheet
      before any row is read. */
  lemma {:induction false} MissingColumnStops(withSheet: Reader, header: seq<CellData>, names: set<string>, sheet: SheetMapping,
                                              ms: seq<ColumnMapping>, richText: string -> string, j: nat)
    requires |header| > 0 && HeaderNames(header) == Ok(names)
    requires j < |ms| && ms[j].columnName !in names
    requires forall i :: 0 <= i < j ==> ms[i].columnName in names
    ensures CheckHeader(withSheet, header, sheet, ms, richText)
              == Progress([], Some(Failure(RuntimeError, ColumnNotFound(ms[j].columnName, sheet.sheetName), None)))
  {
    assert FirstMissing(ms, names) == j;
    assert HeaderCheck(header, sheet.sheetName, ms)
             == Some(Failure(RuntimeError, ColumnNotFound(ms[j].columnName, sheet.sheetName), None));
  }

  /** The header checks pass when every mapping's column is a header name. */
  lemma HeaderCheckPasses(header: seq<CellData>, names: set<string>, sheetName: Option<string>, ms: seq<ColumnMapping>)
    requires |header| > 0 && HeaderNames(header) == Ok(names)
    requires forall i :: 0 <= i < |ms| ==> ms[i].columnName in names
    ensures HeaderCheck(header, sheetName, ms) == None
  {
  }

  /** When every mapping's column is a header name the consecutive rows
      from the data start are imported. */
  lemma {:induction false} MappedHeaderReadsRows(withSheet: Reader, header: seq<CellData>, names: set<string>, sheet: SheetMapping,
                                               ms: seq<ColumnMapping>, richText: string -> string)
    requires withSheet.sheet.Some?
    requires |header| > 0 && HeaderNames(header) == Ok(names)
    requires forall i :: 0 <= i < |ms| ==> ms[i].columnName in names
    ensures CheckHeader(withSheet, header, sheet, ms, richText)
              == ImportRows(withSheet, ms, header, Run(withSheet.sheet.value, sheet.dataRowStartsAt - 1), sheet.sheetName, richText)
  {
    HeaderCheckPasses(header, names, sheet.sheetName, ms);
    PassedHeaderReadsRows(withSheet, header, sheet, ms, richText);
  }

  /** Once the header checks pass, the consecutive rows from the data start are imported. */
  lemma {:induction false} PassedHeaderReadsRows(withSheet: Reader, header: seq<CellData>, sheet: SheetMapping,
                                                 ms: seq<ColumnMapping>, richText: string -> string)
    requires withSheet.sheet.Some?
    requires HeaderCheck(header, sheet.sheetName, ms) == None
    ensures CheckHeader(withSheet, header, sheet, ms, richText)
              == ImportRows(withSheet, ms, header, Run(withSheet.sheet.value, sheet.dataRowStartsAt - 1), sheet.sheetName, richText)
  {
    RowLoopReadsRun(withSheet, ms, header, sheet.dataRowStartsAt - 1, sheet.sheetName, richText);
  }

  // ---------------------------------------------------------------------
  // startImport
  // ---------------------------------------------------------------------

  const NotExcel := "File extension is not an Excel extension ('.xls' or '.xlsx')."
  const CouldNotImport := "Uploaded excel file could not be imported, because: "

  /** A sheet of the template with its column mappings. */
  type SheetEntry = (SheetMapping, seq<ColumnMapping>)

  /** The sheets parsed in order into the same list, until one fails; a
      failure is always `parseData`'s rewrapped exception. */
  function ImportSheets(file: Option<ExcelFile>, sheets: seq<SheetEntry>, richText: string -> string): (p: Progress)
    ensures p.failure.Some? ==>
      && p.failure.value.kind == RuntimeError
      && p.failure.value.cause.Some?
      && p.failure.value.message == p.failure.value.cause.value.message
    ensures |sheets| > 0 && OpenReader(file).Err? ==> p == Progress([], Some(Rethrow(OpenReader(file).failure)))
    decreases |sheets|
  {
    if |sheets| == 0 then Progress([], None)
    else
      var out := ParseData(file, sheets[0].0, sheets[0].1, richText);
      if out.failure.Some? then Progress(out.records, out.failure)
      else
        var rest := ImportSheets(file, sheets[1..], richText);
        Progress(out.records + rest.records, rest.failure)
  }

  /** The try block of `startImport`, before its handlers: the extension
      decides whether the sheets are parsed at all. */
  function ImportBody(file: Option<ExcelFile>, fileName: string, sheets: seq<SheetEntry>, richText: string -> string): (p: Progress)
    ensures p.failure.Some? ==> LibraryMessage(p.failure.value.kind).None?
    ensures p.failure.Some? && p.failure.value.kind == RuntimeError ==>
      p.failure.value.cause.Some? || p.failure.value.message == NoExtension
    ensures p.failure.None? ==> GetFileExtension(fileName) == Ok(XLS) || GetFileExtension(fileName) == Ok(XLSX)
  {
    match GetFileExtension(fileName)
    case Err(f) => Progress([], Some(f))
    case Ok(UNKNOWN) => Progress([], Some(Failure(CoreError, NotExcel, None)))
    case Ok(_) => ImportSheets(file, sheets, richText)
  }

  /** For an Excel name the body is the sheet loop. */
  lemma ExcelNameParsesSheets(file: Option<ExcelFile>, fileName: string, sheets: seq<SheetEntry>, richText: string -> string)
    requires GetFileExtension(fileName).Ok? && GetFileExtension(fileName) != Ok(UNKNOWN)
    ensures ImportBody(file, fileName, sheets, richText) == ImportSheets(file, sheets, richText)
  {
  }

  /** The fixed message of each handler for an exception of the
      spreadsheet library, or None for the other kinds. */
  function LibraryMessage(kind: Kind): Option<string> {
    match kind
    case Ole2NotOfficeXml => Some("Document could not be imported because this excelFile is an XLS and not an XLSX excelFile. Please make sure the excelFile is valid and has the correct extension.")
    case NotOfficeXml => Some("Document could not be imported because this excelFile is not XLS or XLSX. Please make sure the excelFile is valid and has the correct extension.")
    case RecordFormat => Some("Document could not be imported because one of its cell values is invalid or cannot be read.")
    case EncryptedDocument => Some("Document could not be imported because it is encrypted.")
    case _ => None
  }

  /** The handler chain as written: it looks at the class of the exception
      that reached it, and no further. */
  function HandleAsWritten(f: Failure): (g: Failure)
    ensures LibraryMessage(f.kind).Some? ==> g == Failure(RuntimeError, LibraryMessage(f.kind).value, None)
    ensures LibraryMessage(f.kind).None? ==>
      g.kind == CoreError && g.cause == Some(f) && g.message == CouldNotImport + f.message
  {
    match LibraryMessage(f.kind)
    case Some(m) => Failure(RuntimeError, m, None)
    case None => Wrap(CoreError, CouldNotImport + f.message, f)
  }

  /** The innermost exception of a cause chain. */
  function RootCause(f: Failure): Failure
    decreases f
  {
    match f.cause
    case None => f
    case Some(c) => RootCause(c)
  }

  /** The handler chain as its messages intend: a library exception, even
      when wrapped on its way up, gets its own message. */
  function HandleImportFailureIntended(f: Failure): (g: Failure)
    ensures LibraryMessage(RootCause(f).kind).Some? ==> g == Failure(RuntimeError, LibraryMessage(RootCause(f).kind).value, None)
    ensures LibraryMessage(RootCause(f).kind).None? ==> g == Wrap(CoreError, CouldNotImport + f.message, f)
  {
    match LibraryMessage(RootCause(f).kind)
    case Some(m) => Failure(RuntimeError, m, None)
    case None => Wrap(CoreError, CouldNotImport + f.message, f)
  }

  /** The caller's imported list after `startImport`, and what it threw. */
  datatype ImportOutcome = ImportOutcome(imported: seq<Record>, failure: Option<Failure>)

  /** The intended handler either wraps the failure under the generic
      message or replaces it with one of the library messages. */
  lemma IntendedShape(f: Failure)
    ensures var g := HandleImportFailureIntended(f);
      || (g.kind == CoreError && g.cause.Some? && g.message == CouldNotImport + g.cause.value.message)
      || (g.kind == RuntimeError && g.cause.None? && exists k :: LibraryMessage(k) == Some(g.message))
  {
    var k := RootCause(f).kind;
    if LibraryMessage(k).Some? {
      assert LibraryMessage(k) == Some(HandleImportFailureIntended(f).message);
    }
  }

  /** The two handlers agree on an exception that wraps nothing: they differ
      only in looking through causes. */
  lemma HandlersAgreeUnwrapped(f: Failure)
    requires f.cause.None?
    ensures HandleAsWritten(f) == HandleImportFailureIntended(f)
  {
  }

  /** `startImport`, with the handler chain as its messages intend: a
      failure is either the generic message around its cause or a library
      message with no cause, and success needs an Excel extension. */
  function StartImportIntended(file: Option<ExcelFile>, fileName: string, sheets: seq<SheetEntry>,
                               richText: string -> string, imported: seq<Record>): (out: ImportOutcome)
    ensures out.failure.None? ==> GetFileExtension(fileName) == Ok(XLS) || GetFileExtension(fileName) == Ok(XLSX)
    ensures out.failure.Some? ==>
      || (out.failure.value.kind == CoreError && out.failure.value.cause.Some?
          && out.failure.value.message == CouldNotImport + out.failure.value.cause.value.message)
      || (out.failure.value.kind == RuntimeError && out.failure.value.cause.None?
          && exists k :: LibraryMessage(k) == Some(out.failure.value.message))
  {
    var p := ImportBody(file, fileName, sheets, richText);
    var failure := if p.failure.Some? then IntendedShape(p.failure.value); Some(HandleImportFailureIntended(p.failure.value)) else None;
    ImportOutcome(imported + p.records, failure)
  }

  /** `startImport` as written: since nothing of the library reaches the
      handlers unwrapped, every failure is the generic message around its
      cause; success needs an Excel extension. */
  function StartImportAsWritten(file: Option<ExcelFile>, fileName: string, sheets: seq<SheetEntry>,
                                richText: string -> string, imported: seq<Record>): (out: ImportOutcome)
    ensures out.failure.None? ==> GetFileExtension(fileName) == Ok(XLS) || GetFileExtension(fileName) == Ok(XLSX)
    ensures out.failure.Some? ==>
      && out.failure.value.kind == CoreError && out.failure.value.cause.Some?
      && out.failure.value.message == CouldNotImport + out.failure.value.cause.value.message
  {
    var p := ImportBody(file, fileName, sheets, richText);
    ImportOutcome(imported + p.records, if p.failure.Some? then Some(HandleAsWritten(p.failure.value)) else None)
  }

  /** A name without a '.' or with another extension fails before any
      sheet is parsed, with the generic message around the cause. */
  lemma NotExcelFailsEarly(file: Option<ExcelFile>, fileName: string, sheets: seq<SheetEntry>,
                           richText: string -> string, imported: seq<Record>)
    requires GetFileExtension(fileName).Err? || GetFileExtension(fileName) == Ok(UNKNOWN)
    ensures var out := StartImportIntended(file, fileName, sheets, richText, imported);
            && out.imported == imported
            && out.failure.Some?
            && out.failure.value.kind == CoreError
            && out.failure.value.message ==
                 CouldNotImport + (if GetFileExtension(fileName).Err? then NoExtension else NotExcel)
    ensures StartImportAsWritten(file, fileName, sheets, richText, imported)
              == StartImportIntended(file, fileName, sheets, richText, imported)
  {
    assert imported + [] == imported;
  }

  /** The list only grows: whatever happens, the records already in it
      stay in front. */
  lemma StartImportAppends(file: Option<ExcelFile>, fileName: string, sheets: seq<SheetEntry>,
                           richText: string -> string, imported: seq<Record>)
    ensures var out := StartImportIntended(file, fileName, sheets, richText, imported);
            |out.imported| >= |imported| && out.imported[..|imported|] == imported
    ensures var out := StartImportAsWritten(file, fileName, sheets, richText, imported);
            |out.imported| >= |imported| && out.imported[..|imported|] == imported
    ensures StartImportAsWritten(file, fileName, sheets, richText, imported).imported
              == StartImportIntended(file, fileName, sheets, richText, imported).imported
  {
  }

  /** As written, every exception reaching the handlers has been rewrapped
      by `parseData`, so the library handlers never apply: an encrypted
      workbook reports the generic message. */
  lemma EncryptedAsWritten(file: Option<ExcelFile>, m: string, fileName: string, sheet: SheetMapping,
                           ms: seq<ColumnMapping>, richText: string -> string)
    requires file == Some(ExcelFile(true, Err(Failure(EncryptedDocument, m, None))))
    requires EndsWith(fileName, ".xlsx")
    ensures StartImportAsWritten(file, fileName, [(sheet, ms)], richText, []).failure.Some?
    ensures StartImportAsWritten(file, fileName, [(sheet, ms)], richText, []).failure.value.kind == CoreError
    ensures StartImportAsWritten(file, fileName, [(sheet, ms)], richText, []).failure.value.message == CouldNotImport + m
  {
    ExtensionXlsxIff(fileName);
    LibraryFailureHiddenAsWritten(file, fileName, [(sheet, ms)], richText, [], Failure(EncryptedDocument, m, None));
  }

  /** A workbook the library refuses fails the first sheet, wrapped once
      by `parseData`, and no sheet after it is parsed. */
  lemma RefusedWorkbook(file: Option<ExcelFile>, sheets: seq<SheetEntry>, richText: string -> string, f: Failure)
    requires file == Some(ExcelFile(true, Err(f)))
    requires |sheets| > 0
    ensures ImportSheets(file, sheets, richText) == Progress([], Some(Rethrow(f)))
  {
    assert OpenReader(file) == Err(f);
    assert ParseData(file, sheets[0].0, sheets[0].1, richText) == SheetOutcome([], Some(Rethrow(f)), None);
  }

  /** With the intended handler the same workbook reports that it is encrypted. */
  lemma EncryptedReported(file: Option<ExcelFile>, m: string, fileName: string, sheet: SheetMapping,
                          ms: seq<ColumnMapping>, richText: string -> string)
    requires file == Some(ExcelFile(true, Err(Failure(EncryptedDocument, m, None))))
    requires EndsWith(fileName, ".xlsx")
    ensures StartImportIntended(file, fileName, [(sheet, ms)], richText, []).failure
              == Some(Failure(RuntimeError, "Document could not be imported because it is encrypted.", None))
  {
    ExtensionXlsxIff(fileName);
    LibraryFailureReported(file, fileName, [(sheet, ms)], richText, [], Failure(EncryptedDocument, m, None));
  }

  /** As written, a workbook the library refuses is reported with the
      generic message around `parseData`'s rewrapped exception, whatever the
      refusal was. */
  lemma LibraryFailureHiddenAsWritten(file: Option<ExcelFile>, fileName: string, sheets: seq<SheetEntry>,
                                      richText: string -> string, imported: seq<Record>, f: Failure)
    requires file == Some(ExcelFile(true, Err(f)))
    requires GetFileExtension(fileName).Ok? && GetFileExtension(fileName) != Ok(UNKNOWN)
    requires |sheets| > 0
    ensures StartImportAsWritten(file, fileName, sheets, richText, imported)
              == ImportOutcome(imported, Some(Wrap(CoreError, CouldNotImport + f.message, Rethrow(f))))
  {
    RefusedWorkbook(file, sheets, richText, f);
    ExcelNameParsesSheets(file, fileName, sheets, richText);
    assert HandleAsWritten(Rethrow(f)) == Wrap(CoreError, CouldNotImport + f.message, Rethrow(f));
    assert imported + [] == imported;
  }

  /** With the intended handler a workbook the library refuses gets the
      message of the refusal, whichever sheet is parsed first. */
  lemma LibraryFailureReported(file: Option<ExcelFile>, fileName: string, sheets: seq<SheetEntry>,
                               richText: string -> string, imported: seq<Record>, f: Failure)
    requires file == Some(ExcelFile(true, Err(f))) && f.cause.None? && LibraryMessage(f.kind).Some?
    requires GetFileExtension(fileName).Ok? && GetFileExtension(fileName) != Ok(UNKNOWN)
    requires |sheets| > 0
    ensures StartImportIntended(file, fileName, sheets, richText, imported)
              == ImportOutcome(imported, Some(Failure(RuntimeError, LibraryMessage(f.kind).value, None)))
  {
    RefusedWorkbook(file, sheets, richText, f);
    ExcelNameParsesSheets(file, fileName, sheets, richText);
    assert RootCause(Rethrow(f)) == f;
    assert imported + [] == imported;
  }
}
