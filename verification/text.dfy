/** Character and string operations the importer borrows from the Java
    platform: decimal rendering of integers, `String.trim`, `lastIndexOf`. */
module Text {
  import opened Results

  predicate IsDigit(c: char) { '0' <= c <= '9' }

  predicate AllDigits(s: string) {
    forall i :: 0 <= i < |s| ==> IsDigit(s[i])
  }

  function DigitChar(d: nat): (c: char)
    requires d < 10
    ensures IsDigit(c)
  {
    (48 + d) as char
  }

  function DigitValue(c: char): (d: nat)
    requires IsDigit(c)
    ensures d < 10
  {
    c as int - 48
  }

  /** `Integer.toString` of a non-negative number: decimal digits without leading zeros. */
  function NatToString(n: nat): (s: string)
    ensures |s| >= 1 && AllDigits(s)
    ensures s[0] == '0' ==> |s| == 1
    decreases n
  {
    if n < 10 then [DigitChar(n)] else NatToString(n / 10) + [DigitChar(n % 10)]
  }

  /** The number a string of decimal digits denotes. */
  function DigitsValue(s: string): nat
    requires AllDigits(s)
    decreases |s|
  {
    if |s| == 0 then 0 else DigitsValue(s[..|s| - 1]) * 10 + DigitValue(s[|s| - 1])
  }

  lemma {:induction false} NatToStringRoundTrip(n: nat)
    ensures DigitsValue(NatToString(n)) == n
    decreases n
  {
    if n >= 10 {
      var s := NatToString(n);
      assert s[..|s| - 1] == NatToString(n / 10);
      NatToStringRoundTrip(n / 10);
    }
  }

  /** Leading zeros do not change the value of a digit string. */
  lemma {:induction false} LeadingZerosIgnored(z: string, s: string)
    requires forall i :: 0 <= i < |z| ==> z[i] == '0'
    requires AllDigits(s)
    ensures AllDigits(z + s)
    ensures DigitsValue(z + s) == DigitsValue(s)
    decreases |s|
  {
    var zs := z + s;
    assert AllDigits(zs) by {
      forall i | 0 <= i < |zs| ensures IsDigit(zs[i]) {
        if i < |z| { assert zs[i] == z[i]; } else { assert zs[i] == s[i - |z|]; }
      }
    }
    if |s| == 0 {
      assert zs == z;
      AllZerosValue(z);
    } else {
      assert zs[..|zs| - 1] == z + s[..|s| - 1];
      LeadingZerosIgnored(z, s[..|s| - 1]);
    }
  }

  lemma {:induction false} AllZerosValue(z: string)
    requires forall i :: 0 <= i < |z| ==> z[i] == '0'
    ensures AllDigits(z) && DigitsValue(z) == 0
    decreases |z|
  {
    if |z| > 0 {
      AllZerosValue(z[..|z| - 1]);
    }
  }

  /** `Integer.toString` (and string concatenation of an `int`). */
  function IntToString(i: int): (s: string)
    ensures |s| >= 1
    ensures s[0] == '-' <==> i < 0
    ensures forall k :: 0 <= k < |s| ==> s[k] != '\''
  {
    if i < 0 then "-" + NatToString(-i) else NatToString(i)
  }

  /** Reads back an optionally negative decimal integer. */
  function ParseInt(s: string): (r: Option<int>) {
    if |s| >= 2 && s[0] == '-' && AllDigits(s[1..]) then Some(0 - DigitsValue(s[1..]))
    else if |s| >= 1 && AllDigits(s) then Some(DigitsValue(s))
    else None
  }

  lemma IntToStringRoundTrip(i: int)
    ensures ParseInt(IntToString(i)) == Some(i)
  {
    if i < 0 {
      var s := IntToString(i);
      assert s[1..] == NatToString(-i);
      NatToStringRoundTrip(-i);
    } else {
      NatToStringRoundTrip(i);
    }
  }

  /** What `String.trim` removes: every character up to and including U+0020. */
  predicate IsTrimmable(c: char) { c <= ' ' }

  function TrimStart(s: string): (r: string)
    ensures |r| <= |s| && r == s[|s| - |r|..]
    ensures |r| > 0 ==> !IsTrimmable(r[0])
    ensures forall i :: 0 <= i < |s| - |r| ==> IsTrimmable(s[i])
    decreases |s|
  {
    if |s| > 0 && IsTrimmable(s[0]) then
      var r := TrimStart(s[1..]);
      assert s[1..][|s| - 1 - |r|..] == s[|s| - |r|..];
      r
    else s
  }

  function TrimEnd(s: string): (r: string)
    ensures |r| <= |s| && r == s[..|r|]
    ensures |r| > 0 ==> !IsTrimmable(r[|r| - 1])
    ensures forall i :: |r| <= i < |s| ==> IsTrimmable(s[i])
    decreases |s|
  {
    if |s| > 0 && IsTrimmable(s[|s| - 1]) then
      var r := TrimEnd(s[..|s| - 1]);
      assert s[..|s| - 1][..|r|] == s[..|r|];
      r
    else s
  }

  /** `r` is `s` from position `k` on with the characters up to U+0020
      removed from both ends: everything before `k` and after `r` is
      trimmable, and `r` starts and ends with a character that is not. */
  predicate IsTrimOf(s: string, k: int, r: string) {
    && 0 <= k && k + |r| <= |s| && r == s[k..k + |r|]
    && (|r| > 0 ==> !IsTrimmable(r[0]) && !IsTrimmable(r[|r| - 1]))
    && (forall i :: 0 <= i < k ==> IsTrimmable(s[i]))
    && (forall i :: k + |r| <= i < |s| ==> IsTrimmable(s[i]))
  }

  /** `String.trim`: the longest infix that starts and ends with a character above U+0020. */
  function Trim(s: string): (r: string)
    ensures IsTrimOf(s, |s| - |TrimStart(s)|, r)
  {
    TrimParts(s);
    TrimEnd(TrimStart(s))
  }

  /** The facts `Trim` promises, for the two passes it makes. */
  lemma {:induction false} TrimParts(s: string)
    ensures IsTrimOf(s, |s| - |TrimStart(s)|, TrimEnd(TrimStart(s)))
  {
    var a := TrimStart(s);
    var r := TrimEnd(a);
    TrimCombine(s, a, r);
  }

  /** A trimmed suffix `a` of `s` followed by a trimmed prefix `r` of `a`
      is the infix of `s` that `Trim` describes. */
  lemma {:induction false} TrimCombine(s: string, a: string, r: string)
    requires |a| <= |s| && a == s[|s| - |a|..]
    requires |a| > 0 ==> !IsTrimmable(a[0])
    requires forall i :: 0 <= i < |s| - |a| ==> IsTrimmable(s[i])
    requires |r| <= |a| && r == a[..|r|]
    requires |r| > 0 ==> !IsTrimmable(r[|r| - 1])
    requires forall i :: |r| <= i < |a| ==> IsTrimmable(a[i])
    ensures IsTrimOf(s, |s| - |a|, r)
  {
    var k := |s| - |a|;
    if |r| > 0 {
      assert r[0] == a[0];
    }
    forall i | k + |r| <= i < |s| ensures IsTrimmable(s[i]) {
      assert s[i] == a[i - k];
    }
  }

  /** A text that starts and ends above U+0020 is its own trim. */
  lemma TrimKeeps(s: string)
    requires |s| > 0 ==> !IsTrimmable(s[0]) && !IsTrimmable(s[|s| - 1])
    ensures Trim(s) == s
  {
  }

  /** `lastIndexOf`: the position of the last occurrence of `c`, or -1. */
  function LastIndexOf(s: string, c: char): (r: int)
    ensures -1 <= r < |s|
    ensures r >= 0 ==> s[r] == c
    ensures forall j :: r < j < |s| ==> s[j] != c
    decreases |s|
  {
    if |s| == 0 then -1
    else if s[|s| - 1] == c then |s| - 1
    else LastIndexOf(s[..|s| - 1], c)
  }

  /** `indexOf`: the position of the first occurrence of `c`, or `|s|` when there is none. */
  function FirstIndexOf(s: string, c: char): (r: nat)
    ensures r <= |s|
    ensures r < |s| ==> s[r] == c
    ensures forall j :: 0 <= j < r ==> s[j] != c
    decreases |s|
  {
    if |s| == 0 then 0
    else if s[0] == c then 0
    else 1 + FirstIndexOf(s[1..], c)
  }

  /** `Character.toUpperCase` on the lower-case letters of Basic Latin and
      Latin-1 that have an upper-case partner in Latin-1. */
  function UpperCase(c: char): (u: char)
    ensures 'a' <= c <= 'z' ==> u as int == c as int - 32
    ensures !('a' <= c <= 'z') && !('\U{E0}' <= c <= '\U{FE}') ==> u == c
  {
    if 'a' <= c <= 'z' || ('\U{E0}' <= c <= '\U{FE}' && c != '\U{F7}') then (c as int - 32) as char else c
  }

  /** `String.equalsIgnoreCase`: the same length, and at each position
      characters that agree once upper-cased. */
  predicate EqualsIgnoreCase(a: string, b: string) {
    |a| == |b| && forall i :: 0 <= i < |a| ==> UpperCase(a[i]) == UpperCase(b[i])
  }
}
