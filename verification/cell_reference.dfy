/** A1-style cell names: the spreadsheet library's column-letter conversion
    (`CellReference.convertNumToColString`) and the name `getCellName` builds
    from it. Column letters are bijective base 26: A..Z, AA..ZZ, AAA.. */
module CellReference {
  import opened Results
  import opened Text

  predicate IsColumnLetter(c: char) { 'A' <= c <= 'Z' }

  predicate AllColumnLetters(s: string) {
    forall i :: 0 <= i < |s| ==> IsColumnLetter(s[i])
  }

  function Letter(d: nat): (c: char)
    requires d < 26
    ensures IsColumnLetter(c)
  {
    (65 + d) as char
  }

  function LetterValue(c: char): (d: nat)
    requires IsColumnLetter(c)
    ensures d < 26
  {
    c as int - 65
  }

  /** The letters of zero-based column `col`: 0 is "A", 25 is "Z", 26 is "AA". */
  function ColumnName(col: nat): (s: string)
    ensures |s| >= 1 && AllColumnLetters(s)
    decreases col
  {
    if col < 26 then [Letter(col)] else ColumnName(col / 26 - 1) + [Letter(col % 26)]
  }

  /** The zero-based column a string of column letters names. */
  function ColumnIndex(s: string): nat
    requires |s| >= 1 && AllColumnLetters(s)
    decreases |s|
  {
    if |s| == 1 then LetterValue(s[0])
    else (ColumnIndex(s[..|s| - 1]) + 1) * 26 + LetterValue(s[|s| - 1])
  }

  lemma {:induction false} ColumnNameRoundTrip(col: nat)
    ensures ColumnIndex(ColumnName(col)) == col
    decreases col
  {
    if col >= 26 {
      var s := ColumnName(col);
      assert s[..|s| - 1] == ColumnName(col / 26 - 1);
      ColumnNameRoundTrip(col / 26 - 1);
    }
  }

  /** Every string of column letters is the name of exactly one column. */
  lemma {:induction false} ColumnIndexRoundTrip(s: string)
    requires |s| >= 1 && AllColumnLetters(s)
    ensures ColumnName(ColumnIndex(s)) == s
    decreases |s|
  {
    if |s| > 1 {
      var p := s[..|s| - 1];
      var q := ColumnIndex(p);
      var col := ColumnIndex(s);
      assert col == (q + 1) * 26 + LetterValue(s[|s| - 1]);
      assert col / 26 - 1 == q && col % 26 == LetterValue(s[|s| - 1]);
      ColumnIndexRoundTrip(p);
      assert s == p + [s[|s| - 1]];
    }
  }

  /** The position of the first decimal digit, or `|s|`. */
  function FirstDigit(s: string): (k: nat)
    ensures k <= |s|
    ensures k < |s| ==> IsDigit(s[k])
    ensures forall j :: 0 <= j < k ==> !IsDigit(s[j])
    decreases |s|
  {
    if |s| == 0 || IsDigit(s[0]) then 0 else 1 + FirstDigit(s[1..])
  }

  /** Reads an A1-style name back into (zero-based column, zero-based row). */
  function ParseCellName(s: string): Option<(nat, nat)> {
    var k := FirstDigit(s);
    var letters := s[..k];
    var digits := s[k..];
    if 1 <= k && AllColumnLetters(letters) && |digits| >= 1 && AllDigits(digits) && DigitsValue(digits) >= 1
    then Some((ColumnIndex(letters), DigitsValue(digits) - 1))
    else None
  }

  /** The A1-style name of the cell at a zero-based column and row: the
      column letters followed by the one-based row number. */
  function CellName(col: nat, row: nat): (s: string)
    ensures ParseCellName(s) == Some((col, row))
  {
    var letters := ColumnName(col);
    var digits := NatToString(row + 1);
    var s := letters + digits;
    assert FirstDigit(s) == |letters| by {
      FirstDigitAfterLetters(letters, digits);
    }
    assert s[..|letters|] == letters && s[|letters|..] == digits;
    ColumnNameRoundTrip(col);
    NatToStringRoundTrip(row + 1);
    s
  }

  lemma FirstDigitAfterLetters(letters: string, digits: string)
    requires AllColumnLetters(letters)
    requires |digits| >= 1 && AllDigits(digits)
    ensures FirstDigit(letters + digits) == |letters|
  {
    var s := letters + digits;
    assert s[|letters|] == digits[0];
    assert forall j :: 0 <= j < |letters| ==> s[j] == letters[j];
  }

  /** Distinct cells have distinct names. */
  lemma CellNameInjective(c1: nat, r1: nat, c2: nat, r2: nat)
    requires CellName(c1, r1) == CellName(c2, r2)
    ensures c1 == c2 && r1 == r2
  {
  }
}
