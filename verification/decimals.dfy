/** `java.math.BigDecimal` as far as the importer uses it: the `BigDecimal(String)`
    constructor, which reads an optionally signed decimal numeral with an
    optional exponent, and (as its inverse) `toPlainString`. */
module Decimals {
  import opened Results
  import opened Text

  /** The number unscaled * 10^(-scale). */
  datatype BigDecimal = BigDecimal(unscaled: int, scale: int)

  /** The range of a Java `int`, which holds both the exponent and the scale. */
  predicate IsJavaInt(x: int) { -0x8000_0000 <= x < 0x8000_0000 }

  predicate IsExponentMarker(c: char) { c == 'e' || c == 'E' }

  /** The position of the first exponent marker, or `|s|`. */
  function FirstExponentMarker(s: string): (k: nat)
    ensures k <= |s|
    ensures k < |s| ==> IsExponentMarker(s[k])
    ensures forall j :: 0 <= j < k ==> !IsExponentMarker(s[j])
    decreases |s|
  {
    if |s| == 0 || IsExponentMarker(s[0]) then 0 else 1 + FirstExponentMarker(s[1..])
  }

  /** The exponent after the marker: an optional sign and at least one digit. */
  function ParseExponent(t: string): (r: Option<int>)
    ensures r.Some? ==> |t| >= 1
  {
    var negative := |t| > 0 && t[0] == '-';
    var digits := if |t| > 0 && (t[0] == '-' || t[0] == '+') then t[1..] else t;
    if |digits| >= 1 && AllDigits(digits)
    then Some(if negative then 0 - DigitsValue(digits) else DigitsValue(digits))
    else None
  }

  /** The significand: digits with at most one point and at least one digit;
      gives all its digits and how many follow the point. */
  function ParseSignificand(sig: string): (r: Option<(string, nat)>)
    ensures r.Some? ==> |r.value.0| >= 1 && AllDigits(r.value.0)
  {
    var k := FirstIndexOf(sig, '.');
    if k == |sig| then
      if |sig| >= 1 && AllDigits(sig) then Some((sig, 0)) else None
    else
      var integerPart := sig[..k];
      var fractionPart := sig[k + 1..];
      if |integerPart| + |fractionPart| >= 1 && AllDigits(integerPart) && AllDigits(fractionPart)
      then
        assert AllDigits(integerPart + fractionPart) by {
          var all := integerPart + fractionPart;
          forall i | 0 <= i < |all| ensures IsDigit(all[i]) {
            if i < |integerPart| { assert all[i] == integerPart[i]; }
            else { assert all[i] == fractionPart[i - |integerPart|]; }
          }
        }
        Some((integerPart + fractionPart, |fractionPart|))
      else None
  }

  /** An unsigned numeral: significand and optional exponent. An exponent
      outside the `int` range, or a scale (digits after the point minus the
      exponent) outside it, is refused. */
  function ParseUnsigned(body: string): (r: Option<BigDecimal>)
    ensures r.Some? ==> r.value.unscaled >= 0 && IsJavaInt(r.value.scale)
  {
    var e := FirstExponentMarker(body);
    var exponent :- if e == |body| then Some(0) else ParseExponent(body[e + 1..]);
    var significand :- ParseSignificand(body[..e]);
    var scale := significand.1 - exponent;
    if IsJavaInt(exponent) && IsJavaInt(scale) then Some(BigDecimal(DigitsValue(significand.0), scale))
    else None
  }

  /** `new BigDecimal(s)`, or None where it throws NumberFormatException. */
  function ParseDecimal(s: string): (r: Option<BigDecimal>)
    ensures r.Some? ==> |s| >= 1 && IsJavaInt(r.value.scale)
  {
    var negative := |s| > 0 && s[0] == '-';
    var body := if |s| > 0 && (s[0] == '-' || s[0] == '+') then s[1..] else s;
    var u :- ParseUnsigned(body);
    Some(if negative then BigDecimal(0 - u.unscaled, u.scale) else u)
  }

  /** `n` zeros. */
  function Zeros(n: nat): (z: string)
    ensures |z| == n
    ensures forall i :: 0 <= i < n ==> z[i] == '0'
  {
    seq(n, i => '0')
  }

  /** The digits of `n`, left-padded with zeros to at least `width`. */
  function PaddedDigits(n: nat, width: nat): (s: string)
    ensures |s| >= width && |s| >= 1
    ensures AllDigits(s) && DigitsValue(s) == n
  {
    var digits := NatToString(n);
    var z := if |digits| < width then Zeros(width - |digits|) else "";
    LeadingZerosIgnored(z, digits);
    NatToStringRoundTrip(n);
    z + digits
  }

  /** The unsigned plain rendering of `digits` at `scale`: a point before
      the last `scale` digits when the scale is positive. */
  function PlainBody(digits: string, scale: nat): string
    requires |digits| > scale
  {
    var k := |digits| - scale;
    digits[..k] + (if scale > 0 then "." + digits[k..] else "")
  }

  /** `toPlainString` for a non-negative scale: sign, integer digits and, when
      the scale is positive, a point followed by exactly `scale` digits. */
  function PlainString(d: BigDecimal): string
    requires d.scale >= 0
  {
    var magnitude := if d.unscaled < 0 then -d.unscaled else d.unscaled;
    (if d.unscaled < 0 then "-" else "") + PlainBody(PaddedDigits(magnitude, d.scale + 1), d.scale)
  }

  lemma NoExponentMarker(s: string)
    requires forall i :: 0 <= i < |s| ==> IsDigit(s[i]) || s[i] == '.'
    ensures FirstExponentMarker(s) == |s|
  {
  }

  /** The plain body holds only digits and the point. */
  lemma PlainBodyCharacters(digits: string, scale: nat)
    requires AllDigits(digits) && |digits| > scale
    ensures var body := PlainBody(digits, scale);
            forall i :: 0 <= i < |body| ==> IsDigit(body[i]) || body[i] == '.'
  {
    var k := |digits| - scale;
    var body := PlainBody(digits, scale);
    forall i | 0 <= i < |body| ensures IsDigit(body[i]) || body[i] == '.' {
      if i < k { assert body[i] == digits[i]; }
      else if i > k { assert body[i] == digits[i - 1]; }
    }
  }

  /** With a positive scale the only point sits after the integer digits. */
  lemma PlainBodyPoint(digits: string, scale: nat)
    requires AllDigits(digits) && |digits| > scale > 0
    ensures var k := |digits| - scale;
            var body := PlainBody(digits, scale);
            && FirstIndexOf(body, '.') == k
            && body[..k] == digits[..k]
            && body[k + 1..] == digits[k..]
  {
    var k := |digits| - scale;
    var body := PlainBody(digits, scale);
    var j := FirstIndexOf(body, '.');
    assert body[k] == '.';
    assert forall i :: 0 <= i < k ==> body[i] == digits[i];
  }

  lemma {:induction false} PlainBodyRoundTrip(digits: string, scale: nat)
    requires AllDigits(digits) && |digits| > scale && IsJavaInt(scale)
    ensures ParseUnsigned(PlainBody(digits, scale)) == Some(BigDecimal(DigitsValue(digits), scale))
  {
    var body := PlainBody(digits, scale);
    PlainBodyCharacters(digits, scale);
    NoExponentMarker(body);
    assert body[..|body|] == body;
    if scale == 0 {
      assert body == digits;
      var j := FirstIndexOf(body, '.');
      assert j < |body| ==> IsDigit(body[j]);
      assert ParseSignificand(body) == Some((digits, 0));
    } else {
      var k := |digits| - scale;
      PlainBodyPoint(digits, scale);
      assert digits[..k] + digits[k..] == digits;
      assert ParseSignificand(body) == Some((digits, scale));
    }
  }

  /** A leading minus sign negates what the unsigned numeral reads as. */
  lemma ParseNegated(body: string)
    requires ParseUnsigned(body).Some?
    ensures var u := ParseUnsigned(body).value;
            ParseDecimal("-" + body) == Some(BigDecimal(0 - u.unscaled, u.scale))
  {
    var s := "-" + body;
    assert s[0] == '-' && s[1..] == body;
  }

  /** An unsigned numeral starting with a digit reads as itself. */
  lemma ParseDigitFirst(body: string)
    requires |body| >= 1 && IsDigit(body[0])
    ensures ParseDecimal(body) == ParseUnsigned(body)
  {
    assert body[0] != '-' && body[0] != '+';
  }

  /** Reading back the plain rendering of a decimal gives the same unscaled
      value and scale. */
  lemma {:induction false} PlainStringRoundTrip(d: BigDecimal)
    requires 0 <= d.scale && IsJavaInt(d.scale)
    ensures ParseDecimal(PlainString(d)) == Some(d)
  {
    var magnitude := if d.unscaled < 0 then -d.unscaled else d.unscaled;
    var digits := PaddedDigits(magnitude, d.scale + 1);
    var body := PlainBody(digits, d.scale);
    PlainBodyRoundTrip(digits, d.scale);
    assert ParseUnsigned(body) == Some(BigDecimal(magnitude, d.scale));
    if d.unscaled < 0 {
      assert PlainString(d) == "-" + body;
      ParseNegated(body);
    } else {
      assert PlainString(d) == "" + body == body;
      assert body[0] == digits[0];
      ParseDigitFirst(body);
    }
  }

  /** The first exponent marker is at `k` when `s[k]` is one and none comes
      before it. */
  lemma MarkerAt(s: string, k: nat)
    requires k < |s| && IsExponentMarker(s[k])
    requires forall j :: 0 <= j < k ==> !IsExponentMarker(s[j])
    ensures FirstExponentMarker(s) == k
  {
  }

  /** Text without a marker has its "first marker" at its end. */
  lemma NoMarkerIn(s: string)
    requires forall i :: 0 <= i < |s| ==> !IsExponentMarker(s[i])
    ensures FirstExponentMarker(s) == |s|
  {
  }

  /** A sign in front of digits and points adds no marker. */
  lemma {:induction false} SignedNoMarker(s: string, body: string, negative: bool)
    requires s == (if negative then "-" else "") + body
    requires forall i :: 0 <= i < |body| ==> IsDigit(body[i]) || body[i] == '.'
    ensures FirstExponentMarker(s) == |s|
  {
    forall i | 0 <= i < |s| ensures !IsExponentMarker(s[i]) {
      if negative && i > 0 { assert s[i] == body[i - 1]; }
      else if !negative { assert s[i] == body[i]; }
    }
    NoMarkerIn(s);
  }

  /** The plain rendering never holds an exponent marker. */
  lemma {:induction false} PlainStringNoMarker(d: BigDecimal)
    requires 0 <= d.scale
    ensures FirstExponentMarker(PlainString(d)) == |PlainString(d)|
  {
    var magnitude := if d.unscaled < 0 then -d.unscaled else d.unscaled;
    var digits := PaddedDigits(magnitude, d.scale + 1);
    PlainBodyCharacters(digits, d.scale);
    SignedNoMarker(PlainString(d), PlainBody(digits, d.scale), d.unscaled < 0);
  }

  /** The decimal text of an `int` reads back as that exponent. */
  lemma {:induction false} ExponentText(e: int)
    ensures ParseExponent(IntToString(e)) == Some(e)
  {
    var t := IntToString(e);
    if e < 0 {
      assert t[1..] == NatToString(-e);
      NatToStringRoundTrip(-e);
    } else {
      assert IsDigit(t[0]);
      NatToStringRoundTrip(e);
    }
  }

  /** Where the significand and the exponent sit in `s + "E" + t` when `s`
      holds no marker. */
  lemma {:induction false} ExponentPieces(s: string, t: string)
    requires FirstExponentMarker(s) == |s|
    ensures |s| < |s + "E" + t|
    ensures FirstExponentMarker(s + "E" + t) == |s|
    ensures (s + "E" + t)[..|s|] == s && (s + "E" + t)[|s| + 1..] == t
  {
    var w := s + "E" + t;
    assert w[|s|] == 'E';
    assert forall j :: 0 <= j < |s| ==> w[j] == s[j];
    MarkerAt(w, |s|);
    assert w[..|s|] == s;
    assert w[|s| + 1..] == t;
  }

  /** The same pieces after dropping a leading sign from both texts. */
  lemma {:induction false} PiecesAfterSign(s: string, t: string, w: string) returns (body: string, rest: string)
    requires 1 <= |s| < |w| && FirstExponentMarker(w) == |s|
    requires w[..|s|] == s && w[|s| + 1..] == t
    ensures body == s[1..] && rest == w[1..] && w[0] == s[0]
    ensures |body| < |rest| && FirstExponentMarker(rest) == |body|
    ensures rest[..|body|] == body && rest[|body| + 1..] == t
    ensures FirstExponentMarker(body) == |body|
  {
    body, rest := s[1..], w[1..];
    assert w[0] == w[..|s|][0];
    assert forall j :: 0 <= j < |body| ==> rest[j] == w[j + 1] && body[j] == s[j + 1] && s[j + 1] == w[j + 1];
    MarkerAt(rest, |body|);
    NoMarkerIn(body);
    assert rest[..|body|] == body;
    assert rest[|body| + 1..] == w[|s| + 1..];
  }

  /** Appending an exponent to an unsigned numeral without one lowers its
      scale by the exponent and keeps its digits. */
  lemma {:induction false} ShiftUnsigned(body: string, t: string, w: string, e: int, m: int, sc: int)
    requires |body| < |w| && FirstExponentMarker(w) == |body|
    requires w[..|body|] == body && w[|body| + 1..] == t
    requires FirstExponentMarker(body) == |body|
    requires ParseUnsigned(body) == Some(BigDecimal(m, sc))
    requires ParseExponent(t) == Some(e) && IsJavaInt(e) && IsJavaInt(sc - e)
    ensures ParseUnsigned(w) == Some(BigDecimal(m, sc - e))
  {
    assert body[..|body|] == body;
  }

  /** A signed numeral reads as its unsigned rest, negated after a minus. */
  lemma SignedRead(s: string, k: int, sc: int)
    requires |s| >= 1 && (s[0] == '-' || s[0] == '+')
    requires ParseUnsigned(s[1..]) == Some(BigDecimal(k, sc))
    ensures ParseDecimal(s) == Some(BigDecimal(if s[0] == '-' then 0 - k else k, sc))
  {
  }

  /** The converse of SignedRead: what the unsigned rest of a signed numeral
      reads as. */
  lemma SignedParts(s: string, m: int, sc: int) returns (k: int)
    requires |s| >= 1 && (s[0] == '-' || s[0] == '+')
    requires ParseDecimal(s) == Some(BigDecimal(m, sc))
    ensures ParseUnsigned(s[1..]) == Some(BigDecimal(k, sc))
    ensures m == (if s[0] == '-' then 0 - k else k)
  {
    k := ParseUnsigned(s[1..]).value.unscaled;
  }

  /** A numeral without a sign reads as it does unsigned, both ways. */
  lemma UnsignedRead(s: string, m: int, sc: int)
    requires |s| >= 1 && s[0] != '-' && s[0] != '+'
    ensures ParseDecimal(s) == Some(BigDecimal(m, sc)) <==> ParseUnsigned(s) == Some(BigDecimal(m, sc))
  {
  }

  lemma {:induction false} SignedShift(s: string, t: string, w: string, e: int, m: int, sc: int)
    requires 1 <= |s| < |w| && FirstExponentMarker(w) == |s|
    requires w[..|s|] == s && w[|s| + 1..] == t
    requires s[0] == '-' || s[0] == '+'
    requires ParseDecimal(s) == Some(BigDecimal(m, sc))
    requires ParseExponent(t) == Some(e) && IsJavaInt(e) && IsJavaInt(sc - e)
    ensures ParseDecimal(w) == Some(BigDecimal(m, sc - e))
  {
    var body, rest := PiecesAfterSign(s, t, w);
    var k := SignedParts(s, m, sc);
    ShiftUnsigned(body, t, rest, e, k, sc);
    SignedRead(w, k, sc - e);
  }

  lemma {:induction false} UnsignedShift(s: string, t: string, w: string, e: int, m: int, sc: int)
    requires 1 <= |s| < |w| && FirstExponentMarker(w) == |s|
    requires w[..|s|] == s && w[|s| + 1..] == t
    requires FirstExponentMarker(s) == |s|
    requires s[0] != '-' && s[0] != '+'
    requires ParseDecimal(s) == Some(BigDecimal(m, sc))
    requires ParseExponent(t) == Some(e) && IsJavaInt(e) && IsJavaInt(sc - e)
    ensures ParseDecimal(w) == Some(BigDecimal(m, sc - e))
  {
    assert w[0] == w[..|s|][0];
    UnsignedRead(s, m, sc);
    ShiftUnsigned(s, t, w, e, m, sc);
    UnsignedRead(w, m, sc - e);
  }

  /** Appending "E" and an exponent `e` to any numeral that has no exponent
      yet keeps its unscaled value and lowers its scale by `e`, as long as
      both fit an `int`. */
  lemma {:induction false} ExponentShift(s: string, t: string, e: int, m: int, sc: int)
    requires FirstExponentMarker(s) == |s|
    requires ParseDecimal(s) == Some(BigDecimal(m, sc))
    requires ParseExponent(t) == Some(e) && IsJavaInt(e) && IsJavaInt(sc - e)
    ensures ParseDecimal(s + "E" + t) == Some(BigDecimal(m, sc - e))
  {
    ExponentPieces(s, t);
    var w := s + "E" + t;
    if s[0] == '-' || s[0] == '+' {
      SignedShift(s, t, w, e, m, sc);
    } else {
      UnsignedShift(s, t, w, e, m, sc);
    }
  }

  /** The plain rendering reads back as the same unscaled value and scale and
      holds no exponent marker. */
  lemma {:induction false} PlainStringReads(d: BigDecimal)
    requires 0 <= d.scale && IsJavaInt(d.scale)
    ensures FirstExponentMarker(PlainString(d)) == |PlainString(d)|
    ensures ParseDecimal(PlainString(d)) == Some(BigDecimal(d.unscaled, d.scale))
  {
    assert d == BigDecimal(d.unscaled, d.scale);
    PlainStringRoundTrip(d);
    PlainStringNoMarker(d);
  }

  /** The plain rendering followed by "E" and the decimal text of `e` reads
      as the same unscaled value at scale `d.scale - e`: the shape
      `Double.toString` gives large and small numbers. */
  lemma {:induction false} ExponentRoundTrip(d: BigDecimal, e: int)
    requires 0 <= d.scale && IsJavaInt(d.scale)
    requires IsJavaInt(e) && IsJavaInt(d.scale - e)
    ensures ParseDecimal(PlainString(d) + "E" + IntToString(e)) == Some(BigDecimal(d.unscaled, d.scale - e))
  {
    var m, sc := d.unscaled, d.scale;
    PlainStringReads(d);
    ExponentText(e);
    ExponentShift(PlainString(d), IntToString(e), e, m, sc);
  }

  lemma DigitsExample()
    ensures AllDigits("123450") && DigitsValue("123450") == 123450
  {
    assert DigitsValue("1") == 1;
    assert DigitsValue("12") == 12 by { assert "12"[..1] == "1"; }
    assert DigitsValue("123") == 123 by { assert "123"[..2] == "12"; }
    assert DigitsValue("1234") == 1234 by { assert "1234"[..3] == "123"; }
    assert DigitsValue("12345") == 12345 by { assert "12345"[..4] == "1234"; }
    assert "123450"[..5] == "12345";
  }

  /** The text "1234.50" reads as 123450 at scale 2. */
  lemma ParseExample()
    ensures ParseDecimal("1234.50") == Some(BigDecimal(123450, 2))
  {
    DigitsExample();
    PlainBodyRoundTrip("123450", 2);
    assert PlainBody("123450", 2) == "1234.50";
    ParseDigitFirst("1234.50");
  }

  /** Text that is not a numeral, and the empty text, are refused. */
  lemma RejectExamples()
    ensures ParseDecimal("abc") == None
    ensures ParseDecimal("") == None
  {
    assert FirstExponentMarker("abc") == 3;
    assert FirstIndexOf("abc", '.') == 3;
    assert ParseSignificand("abc") == None;
    assert ParseUnsigned("abc") == None;
    assert ParseUnsigned("") == None;
  }

  /** The digits of 2^31 read as 2^31. */
  lemma TwoTo31Digits()
    ensures AllDigits("2147483648") && DigitsValue("2147483648") == 0x8000_0000
  {
    assert DigitsValue("2") == 2;
    assert DigitsValue("21") == 21 by { assert "21"[..1] == "2"; }
    assert DigitsValue("214") == 214 by { assert "214"[..2] == "21"; }
    assert DigitsValue("2147") == 2147 by { assert "2147"[..3] == "214"; }
    assert DigitsValue("21474") == 21474 by { assert "21474"[..4] == "2147"; }
    assert DigitsValue("214748") == 214748 by { assert "214748"[..5] == "21474"; }
    assert DigitsValue("2147483") == 2147483 by { assert "2147483"[..6] == "214748"; }
    assert DigitsValue("21474836") == 21474836 by { assert "21474836"[..7] == "2147483"; }
    assert DigitsValue("214748364") == 214748364 by { assert "214748364"[..8] == "21474836"; }
    assert "2147483648"[..9] == "214748364";
  }

  /** An exponent of 2^31 does not fit an `int`. */
  lemma RejectLargeExponent()
    ensures ParseDecimal("1E2147483648") == None
  {
    TwoTo31Digits();
    var body := "1E2147483648";
    assert FirstExponentMarker(body) == 1;
    assert body[2..] == "2147483648";
    assert ParseExponent(body[2..]) == Some(0x8000_0000);
    assert ParseUnsigned(body) == None;
  }

  /** An exponent of -2^31 fits an `int`, but the scale 2^31 it gives does
      not. */
  lemma RejectLargeScale()
    ensures ParseDecimal("1E-2147483648") == None
  {
    TwoTo31Digits();
    var body := "1E-2147483648";
    assert FirstExponentMarker(body) == 1;
    assert body[2..] == "-2147483648";
    assert "-2147483648"[1..] == "2147483648";
    assert ParseExponent(body[2..]) == Some(-0x8000_0000);
    assert body[..1] == "1";
    assert FirstIndexOf("1", '.') == 1;
    assert ParseSignificand(body[..1]) == Some(("1", 0));
    assert ParseUnsigned(body) == None;
  }

  lemma EightDigits()
    ensures AllDigits("12345678") && DigitsValue("12345678") == 12345678
  {
    assert DigitsValue("1") == 1;
    assert DigitsValue("12") == 12 by { assert "12"[..1] == "1"; }
    assert DigitsValue("123") == 123 by { assert "123"[..2] == "12"; }
    assert DigitsValue("1234") == 1234 by { assert "1234"[..3] == "123"; }
    assert DigitsValue("12345") == 12345 by { assert "12345"[..4] == "1234"; }
    assert DigitsValue("123456") == 123456 by { assert "123456"[..5] == "12345"; }
    assert DigitsValue("1234567") == 1234567 by { assert "1234567"[..6] == "123456"; }
    assert "12345678"[..7] == "1234567";
  }

  /** The plain text "1.2345678" has no marker and reads as 12345678 at
      scale 7. */
  lemma PlainTextLarge()
    ensures FirstExponentMarker("1.2345678") == 9
    ensures ParseDecimal("1.2345678") == Some(BigDecimal(12345678, 7))
  {
    var digits := "12345678";
    EightDigits();
    PlainBodyRoundTrip(digits, 7);
    assert PlainBody(digits, 7) == "1.2345678";
    ParseDigitFirst("1.2345678");
    PlainBodyCharacters(digits, 7);
    NoExponentMarker("1.2345678");
  }

  /** A number as `Double.toString` renders it from 10^7 on:
      "1.2345678E7" reads as 12345678 at scale 0. */
  lemma DoubleTextLarge()
    ensures ParseDecimal("1.2345678" + "E" + "7") == Some(BigDecimal(12345678, 0))
  {
    var plain, exponent := "1.2345678", "7";
    assert ParseExponent(exponent) == Some(7);
    PlainTextLarge();
    ExponentShift(plain, exponent, 7, 12345678, 7);
  }

  /** The plain text "5.0" has no marker and reads as 50 at scale 1. */
  lemma PlainTextSmall()
    ensures FirstExponentMarker("5.0") == 3
    ensures ParseDecimal("5.0") == Some(BigDecimal(50, 1))
  {
    var digits := "50";
    assert DigitsValue(digits) == 50 by { assert digits[..1] == "5"; }
    PlainBodyRoundTrip(digits, 1);
    assert PlainBody(digits, 1) == "5.0";
    ParseDigitFirst("5.0");
    PlainBodyCharacters(digits, 1);
    NoExponentMarker("5.0");
  }

  lemma NegativeExponentText()
    ensures ParseExponent("-4") == Some(-4)
  {
    var t := "-4";
    assert t[0] == '-' && t[1..] == "4";
    assert DigitsValue("4") == 4;
  }

  /** A number as `Double.toString` renders it below 10^-3:
      "5.0E-4" reads as 50 at scale 5. */
  lemma DoubleTextSmall()
    ensures ParseDecimal("5.0" + "E" + "-4") == Some(BigDecimal(50, 5))
  {
    var plain, exponent := "5.0", "-4";
    NegativeExponentText();
    PlainTextSmall();
    ExponentShift(plain, exponent, -4, 50, 1);
  }
}
