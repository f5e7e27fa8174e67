/** `DataImporterUtils`: the file-format decision taken from an uploaded
    file's name, and the three-stage clean-up of a name into an identifier. */
module ImporterUtils {
  import opened Results
  import opened Text

  // ---------------------------------------------------------------------
  // getFileExtension
  // ---------------------------------------------------------------------

  datatype ExcelExtension = XLS | XLSX | UNKNOWN

  const NoExtension: string := "Found file has no extension to derive format from."

  /** The format named by the text from the last '.' on; a name without a
      '.' is an error, and the only one. The comparison is exact, so case
      matters. */
  function GetFileExtension(fileName: string): (r: Result<ExcelExtension>)
    ensures r.Err? <==> '.' !in fileName
    ensures r.Err? ==> r.failure == Failure(RuntimeError, NoExtension, None)
  {
    var lastdot := LastIndexOf(fileName, '.');
    if lastdot < 0 then Raise(RuntimeError, NoExtension)
    else
      var suffix := fileName[lastdot..];
      if suffix == ".xls" then Ok(XLS)
      else if suffix == ".xlsx" then Ok(XLSX)
      else Ok(UNKNOWN)
  }

  /** `lastIndexOf` finds an occurrence with none after it. */
  lemma LastIndexOfAt(s: string, c: char, k: nat)
    requires k < |s| && s[k] == c
    requires forall j :: k < j < |s| ==> s[j] != c
    ensures LastIndexOf(s, c) == k
  {
  }

  predicate EndsWith(s: string, suffix: string) {
    |s| >= |suffix| && s[|s| - |suffix|..] == suffix
  }

  /** For a suffix that starts with the only '.' it holds, the text from
      the last '.' is that suffix exactly when the name ends with it. */
  lemma SuffixFromLastDot(fileName: string, suffix: string)
    requires |suffix| >= 1 && suffix[0] == '.'
    requires forall j :: 1 <= j < |suffix| ==> suffix[j] != '.'
    ensures var lastdot := LastIndexOf(fileName, '.');
            (lastdot >= 0 && fileName[lastdot..] == suffix) <==> EndsWith(fileName, suffix)
  {
    var n := |fileName|;
    if EndsWith(fileName, suffix) {
      var k := n - |suffix|;
      assert forall j :: k <= j < n ==> fileName[j] == suffix[j - k];
      LastIndexOfAt(fileName, '.', k);
    }
  }

  /** XLS is chosen exactly when the name ends in ".xls", a name that is
      only ".xls" included. */
  lemma ExtensionXlsIff(fileName: string)
    ensures GetFileExtension(fileName) == Ok(XLS) <==> EndsWith(fileName, ".xls")
  {
    SuffixFromLastDot(fileName, ".xls");
  }

  /** XLSX is chosen exactly when the name ends in ".xlsx". */
  lemma ExtensionXlsxIff(fileName: string)
    ensures GetFileExtension(fileName) == Ok(XLSX) <==> EndsWith(fileName, ".xlsx")
  {
    SuffixFromLastDot(fileName, ".xlsx");
  }

  /** Only the text from the last '.' matters: a prefix in front of a name
      that already holds a '.' does not change the outcome. */
  lemma ExtensionIgnoresPrefix(prefix: string, fileName: string)
    requires '.' in fileName
    ensures GetFileExtension(prefix + fileName) == GetFileExtension(fileName)
  {
    var i :| 0 <= i < |fileName| && fileName[i] == '.';
    var whole := prefix + fileName;
    var k := LastIndexOf(fileName, '.');
    assert k >= i;
    assert whole[|prefix| + k] == '.';
    assert forall j :: |prefix| + k < j < |whole| ==> whole[j] == fileName[j - |prefix|];
    LastIndexOfAt(whole, '.', |prefix| + k);
    assert whole[|prefix| + k..] == fileName[k..];
  }

  /** The match is exact: ".xls" and ".xlsx" are recognised, and case
      matters. */
  lemma ExtensionExamples()
    ensures GetFileExtension(".xls") == Ok(XLS)
    ensures GetFileExtension("data.xlsx") == Ok(XLSX)
    ensures GetFileExtension("data.XLS") == Ok(UNKNOWN)
  {
    LastIndexOfAt(".xls", '.', 0);
    assert ".xls"[0..] == ".xls";
    LastIndexOfAt("data.xlsx", '.', 4);
    assert "data.xlsx"[4..] == ".xlsx";
    LastIndexOfAt("data.XLS", '.', 4);
    assert "data.XLS"[4..] == ".XLS";
  }

  /** Only the text past the last '.' counts, a trailing '.' names no
      format, and a name without '.' fails. */
  lemma LastSuffixExamples()
    ensures GetFileExtension("a.xlsx.bak") == Ok(UNKNOWN)
    ensures GetFileExtension("a.") == Ok(UNKNOWN)
    ensures GetFileExtension("data").Err?
  {
    LastIndexOfAt("a.xlsx.bak", '.', 6);
    assert "a.xlsx.bak"[6..] == ".bak";
    LastIndexOfAt("a.", '.', 1);
    assert "a."[1..] == ".";
  }

  // ---------------------------------------------------------------------
  // sanitizeName
  // ---------------------------------------------------------------------

  /** A regex word character, `\w`: an ASCII letter, digit or underscore. */
  predicate IsWordChar(c: char) {
    ('a' <= c <= 'z') || ('A' <= c <= 'Z') || ('0' <= c <= '9') || c == '_'
  }

  /** The characters of the class `[a-zA-Z0-9_ ]`. */
  predicate IsKept(c: char) { IsWordChar(c) || c == ' ' }

  /** `[^a-zA-Z0-9_ ]`. */
  predicate IsRemoved(c: char) { !IsKept(c) }

  /** `[\s\xa0]`: the regex whitespace class (space, tab, line feed, vertical
      tab, form feed, carriage return) and the no-break space. */
  predicate IsSpaceClass(c: char) {
    c == ' ' || c == '\t' || c == '\n' || c == '\r' || c as int == 0x0B || c as int == 0x0C || c as int == 0xA0
  }

  /** `\W`. */
  predicate IsNonWord(c: char) { !IsWordChar(c) }

  /** An ASCII letter or digit: what the clean-up never adds or drops. */
  predicate IsAlnum(c: char) { IsWordChar(c) && c != '_' }

  /** The input without its leading characters of class `inRun`. */
  function DropWhile(s: string, inRun: char -> bool): (r: string)
    ensures |r| <= |s| && r == s[|s| - |r|..]
    ensures |r| > 0 ==> !inRun(r[0])
    ensures forall i :: 0 <= i < |s| - |r| ==> inRun(s[i])
    decreases |s|
  {
    if |s| > 0 && inRun(s[0]) then
      var r := DropWhile(s[1..], inRun);
      assert s[1..][|s| - 1 - |r|..] == s[|s| - |r|..];
      assert forall i :: 1 <= i < |s| - |r| ==> s[i] == s[1..][i - 1];
      r
    else s
  }

  /** `replaceAll("[class]+", replacement)`: every maximal run of characters of the
      class, scanned from the left, becomes `replacement`. */
  function ReplaceRuns(s: string, inRun: char -> bool, replacement: string): string
    decreases |s|
  {
    if |s| == 0 then ""
    else if inRun(s[0]) then replacement + ReplaceRuns(DropWhile(s, inRun), inRun, replacement)
    else [s[0]] + ReplaceRuns(s[1..], inRun, replacement)
  }

  /** Line 29: drop every run outside `[a-zA-Z0-9_ ]`. */
  function StageOne(s: string): string {
    ReplaceRuns(s, IsRemoved, "")
  }

  /** Line 30: each whitespace run becomes one space, then `trim`. */
  function StageTwo(s: string): string {
    Trim(ReplaceRuns(s, IsSpaceClass, " "))
  }

  /** Line 31: each run of non-word characters becomes one underscore. */
  function StageThree(s: string): string {
    ReplaceRuns(s, IsNonWord, "_")
  }

  /** `sanitizeName`: the three stages in order. The result is an identifier
      (only `[a-zA-Z0-9_]`), keeps the input's letters and digits in order,
      and equals the one-pass reading below. */
  function SanitizeName(name: string): (r: string)
    ensures r == OnePass(name, false, false)
    ensures AllWord(r)
    ensures AlnumOnly(r) == AlnumOnly(name)
  {
    StagesAreOnePass(name);
    OnePassWordOnly(name, false, false);
    OnePassKeepsAlnum(name, false, false);
    StageThree(StageTwo(StageOne(name)))
  }

  /** A one-pass reading of the same clean-up: letters, digits and
      underscores are copied, other characters except the space vanish, and
      a stretch of spaces after something was copied yields one underscore
      just before the next copied character. `emitted` says a character
      has been copied; `pending` says spaces were seen since then. */
  function OnePass(s: string, emitted: bool, pending: bool): string
    decreases |s|
  {
    if |s| == 0 then ""
    else if IsWordChar(s[0]) then (if pending then "_" else "") + [s[0]] + OnePass(s[1..], true, false)
    else if s[0] == ' ' then OnePass(s[1..], emitted, pending || emitted)
    else OnePass(s[1..], emitted, pending)
  }

  predicate AllKept(s: string) { forall i :: 0 <= i < |s| ==> IsKept(s[i]) }

  predicate AllWord(s: string) { forall i :: 0 <= i < |s| ==> IsWordChar(s[i]) }

  function KeptOnly(s: string): (r: string)
    ensures AllKept(r)
    decreases |s|
  {
    if |s| == 0 then "" else (if IsKept(s[0]) then [s[0]] else "") + KeptOnly(s[1..])
  }

  function AlnumOnly(s: string): string
    decreases |s|
  {
    if |s| == 0 then "" else (if IsAlnum(s[0]) then [s[0]] else "") + AlnumOnly(s[1..])
  }

  lemma {:induction false} KeptOnlySkipsRemoved(s: string)
    ensures KeptOnly(DropWhile(s, IsRemoved)) == KeptOnly(s)
    decreases |s|
  {
    if |s| > 0 && IsRemoved(s[0]) {
      KeptOnlySkipsRemoved(s[1..]);
    }
  }

  /** The first stage keeps exactly the characters of `[a-zA-Z0-9_ ]`. */
  lemma {:induction false} StageOneKeeps(s: string)
    ensures StageOne(s) == KeptOnly(s)
    decreases |s|
  {
    if |s| > 0 {
      if IsRemoved(s[0]) {
        var d := DropWhile(s, IsRemoved);
        KeptOnlySkipsRemoved(s);
        StageOneKeeps(d);
        assert StageOne(s) == "" + StageOne(d);
      } else {
        StageOneKeeps(s[1..]);
      }
    }
  }

  lemma {:induction false} OnePassIgnoresRemoved(s: string, emitted: bool, pending: bool)
    ensures OnePass(KeptOnly(s), emitted, pending) == OnePass(s, emitted, pending)
    decreases |s|
  {
    if |s| > 0 {
      OnePassIgnoresRemoved(s[1..], emitted, true);
      OnePassIgnoresRemoved(s[1..], emitted, false);
      OnePassIgnoresRemoved(s[1..], true, false);
      var rest := KeptOnly(s[1..]);
      if IsKept(s[0]) {
        assert KeptOnly(s) == [s[0]] + rest;
        assert (KeptOnly(s))[1..] == rest;
      } else {
        assert KeptOnly(s) == rest;
      }
    }
  }

  /** Among kept characters only the space is whitespace or trimmable. */
  lemma KeptClasses(c: char)
    requires IsKept(c)
    ensures IsSpaceClass(c) <==> c == ' '
    ensures IsTrimmable(c) <==> c == ' '
    ensures IsNonWord(c) <==> c == ' '
  {
  }

  lemma {:induction false} TrimStartDropsSpaces(t: string)
    requires AllKept(t)
    ensures TrimStart(t) == DropWhile(t, IsSpaceClass)
    decreases |t|
  {
    if |t| > 0 {
      KeptClasses(t[0]);
      TrimStartDropsSpaces(t[1..]);
    }
  }

  /** Whitespace runs collapsed to one space. */
  function Collapse(t: string): string {
    ReplaceRuns(t, IsSpaceClass, " ")
  }

  /** After the leading spaces of a kept string comes a word character. */
  lemma AfterSpaces(t: string)
    requires AllKept(t)
    ensures var d := DropWhile(t, IsSpaceClass);
            AllKept(d) && (|d| > 0 ==> IsWordChar(d[0]))
  {
    var d := DropWhile(t, IsSpaceClass);
    assert forall i :: 0 <= i < |d| ==> d[i] == t[|t| - |d| + i];
  }

  lemma {:induction false} TrimEndCons(c: char, x: string)
    ensures TrimEnd([c] + x) == (if IsTrimmable(c) && TrimEnd(x) == "" then "" else [c] + TrimEnd(x))
    decreases |x|
  {
    if |x| > 0 && IsTrimmable(x[|x| - 1]) {
      var y := x[..|x| - 1];
      assert ([c] + x)[..|x|] == [c] + y;
      TrimEndCons(c, y);
    }
  }

  lemma StageThreeWord(c: char, y: string)
    requires IsWordChar(c)
    ensures StageThree([c] + y) == [c] + StageThree(y)
  {
    assert ([c] + y)[1..] == y;
  }

  lemma StageThreeSpace(y: string)
    requires |y| > 0 ==> IsWordChar(y[0])
    ensures StageThree([' '] + y) == "_" + StageThree(y)
  {
    assert ([' '] + y)[1..] == y;
    assert DropWhile([' '] + y, IsNonWord) == y;
  }

  lemma CollapseWord(t: string)
    requires |t| > 0 && IsWordChar(t[0])
    ensures Collapse(t) == [t[0]] + Collapse(t[1..])
  {
  }

  lemma CollapseSpace(t: string)
    requires |t| > 0 && t[0] == ' '
    ensures Collapse(t) == [' '] + Collapse(DropWhile(t, IsSpaceClass))
  {
  }

  /** A stretch of spaces with something already copied leaves an underscore pending. */
  lemma {:induction false} OnePassSkipsSpaces(w: string, emitted: bool, pending: bool)
    requires AllKept(w) && |w| > 0 && w[0] == ' '
    ensures OnePass(w, emitted, pending) == OnePass(DropWhile(w, IsSpaceClass), emitted, pending || emitted)
    decreases |w|
  {
    var rest := w[1..];
    if |rest| > 0 && rest[0] == ' ' {
      OnePassSkipsSpaces(rest, emitted, pending || emitted);
    } else if |rest| > 0 {
      KeptClasses(rest[0]);
    }
  }

  /** The collapsed, right-trimmed and underscored form of a kept string
      that starts with a word character keeps that character in front. */
  lemma TailWordStep(w: string)
    requires |w| > 0 && IsWordChar(w[0])
    ensures StageThree(TrimEnd(Collapse(w))) == [w[0]] + StageThree(TrimEnd(Collapse(w[1..])))
  {
    CollapseWord(w);
    TrimEndCons(w[0], Collapse(w[1..]));
    StageThreeWord(w[0], TrimEnd(Collapse(w[1..])));
  }

  /** Leading spaces of a kept string: nothing if nothing follows them,
      otherwise one underscore. */
  lemma TailSpaceStep(w: string)
    requires AllKept(w) && |w| > 0 && w[0] == ' '
    ensures var d := DropWhile(w, IsSpaceClass);
            StageThree(TrimEnd(Collapse(w)))
              == if |d| == 0 then "" else "_" + StageThree(TrimEnd(Collapse(d)))
  {
    var d := DropWhile(w, IsSpaceClass);
    AfterSpaces(w);
    CollapseSpace(w);
    TrimEndCons(' ', Collapse(d));
    if |d| == 0 {
      assert TrimEnd(Collapse(w)) == "";
    } else {
      CollapseWord(d);
      TrimEndCons(d[0], Collapse(d[1..]));
      var tail := TrimEnd(Collapse(d));
      assert TrimEnd(Collapse(w)) == [' '] + tail;
      StageThreeSpace(tail);
    }
  }

  lemma OnePassWordStep(x: string, emitted: bool, pending: bool)
    requires |x| > 0 && IsWordChar(x[0])
    ensures OnePass(x, emitted, pending) == (if pending then "_" else "") + [x[0]] + OnePass(x[1..], true, false)
  {
  }

  lemma OnePassPendingWord(d: string)
    requires |d| > 0 && IsWordChar(d[0])
    ensures OnePass(d, true, true) == "_" + OnePass(d, true, false)
  {
    OnePassWordStep(d, true, true);
    OnePassWordStep(d, true, false);
  }

  lemma OnePassSpaceStep(w: string, d: string)
    requires AllKept(w) && |w| > 0 && w[0] == ' '
    requires d == DropWhile(w, IsSpaceClass)
    ensures OnePass(w, true, false) == if |d| == 0 then "" else "_" + OnePass(d, true, false)
  {
    AfterSpaces(w);
    OnePassSkipsSpaces(w, true, false);
    if |d| > 0 {
      OnePassPendingWord(d);
    }
  }

  /** Stages two (without the leading trim) and three read a kept string
      the way the one-pass rule does once something has been copied. */
  lemma {:induction false} TailAgrees(w: string)
    requires AllKept(w)
    ensures StageThree(TrimEnd(Collapse(w))) == OnePass(w, true, false)
    decreases |w|
  {
    if |w| > 0 {
      KeptClasses(w[0]);
      if IsWordChar(w[0]) {
        TailWordStep(w);
        TailAgrees(w[1..]);
      } else {
        var d := DropWhile(w, IsSpaceClass);
        AfterSpaces(w);
        TailSpaceStep(w);
        OnePassSpaceStep(w, d);
        if |d| > 0 {
          TailAgrees(d);
        }
      }
    }
  }

  lemma TrimStartOfWordStart(x: string)
    requires |x| > 0 ==> IsWordChar(x[0])
    ensures TrimStart(x) == x
    ensures TrimStart([' '] + x) == x
  {
    assert ([' '] + x)[1..] == x;
  }

  lemma TrimStartCollapse(t: string)
    requires AllKept(t)
    ensures TrimStart(Collapse(t)) == Collapse(DropWhile(t, IsSpaceClass))
  {
    if |t| > 0 {
      KeptClasses(t[0]);
      var d := DropWhile(t, IsSpaceClass);
      AfterSpaces(t);
      if |d| > 0 {
        CollapseWord(d);
      }
      TrimStartOfWordStart(Collapse(d));
      if t[0] == ' ' {
        CollapseSpace(t);
      } else {
        assert d == t;
      }
    }
  }

  /** The three regex stages agree with the one-pass rule on every input. */
  lemma StagesAreOnePass(name: string)
    ensures StageThree(StageTwo(StageOne(name))) == OnePass(name, false, false)
  {
    var t := KeptOnly(name);
    StageOneKeeps(name);
    OnePassIgnoresRemoved(name, false, false);
    var d := DropWhile(t, IsSpaceClass);
    TrimStartCollapse(t);
    AfterSpaces(t);
    assert StageTwo(t) == TrimEnd(Collapse(d));
    TailAgrees(d);
    if |t| > 0 && t[0] == ' ' {
      OnePassSkipsSpaces(t, false, false);
    } else if |t| > 0 {
      KeptClasses(t[0]);
    }
  }

  lemma {:induction false} OnePassWordOnly(s: string, emitted: bool, pending: bool)
    ensures AllWord(OnePass(s, emitted, pending))
    decreases |s|
  {
    if |s| > 0 {
      OnePassWordOnly(s[1..], true, false);
      OnePassWordOnly(s[1..], emitted, pending || emitted);
      OnePassWordOnly(s[1..], emitted, pending);
    }
  }

  lemma {:induction false} AlnumOnlyAppend(a: string, b: string)
    ensures AlnumOnly(a + b) == AlnumOnly(a) + AlnumOnly(b)
    decreases |a|
  {
    if |a| == 0 {
      assert a + b == b;
    } else {
      var head := if IsAlnum(a[0]) then [a[0]] else "";
      assert (a + b)[0] == a[0] && (a + b)[1..] == a[1..] + b;
      AlnumOnlyAppend(a[1..], b);
      assert AlnumOnly(a + b) == head + (AlnumOnly(a[1..]) + AlnumOnly(b));
    }
  }

  lemma {:induction false} OnePassKeepsAlnum(s: string, emitted: bool, pending: bool)
    ensures AlnumOnly(OnePass(s, emitted, pending)) == AlnumOnly(s)
    decreases |s|
  {
    if |s| > 0 {
      var c := s[0];
      if IsWordChar(c) {
        var u := if pending then "_" else "";
        OnePassKeepsAlnum(s[1..], true, false);
        AlnumOnlyAppend(u + [c], OnePass(s[1..], true, false));
        AlnumOnlyAppend(u, [c]);
        assert AlnumOnly(u) == "";
      } else if c == ' ' {
        OnePassKeepsAlnum(s[1..], emitted, pending || emitted);
      } else {
        OnePassKeepsAlnum(s[1..], emitted, pending);
      }
    }
  }

  lemma {:induction false} OnePassOfWord(w: string, emitted: bool)
    requires AllWord(w)
    ensures OnePass(w, emitted, false) == w
    decreases |w|
  {
    if |w| > 0 {
      OnePassOfWord(w[1..], true);
      assert w == [w[0]] + w[1..];
    }
  }

  /** Cleaning a clean name changes nothing. */
  lemma SanitizeIdempotent(name: string)
    ensures SanitizeName(SanitizeName(name)) == SanitizeName(name)
  {
    var once := SanitizeName(name);
    OnePassOfWord(once, false);
  }

  function Spaces(n: nat): (s: string)
    ensures |s| == n && forall i :: 0 <= i < n ==> s[i] == ' '
  {
    seq(n, i => ' ')
  }

  lemma {:induction false} OnePassAppend(a: string, b: string, emitted: bool)
    requires AllWord(a) && |a| > 0
    ensures OnePass(a + b, emitted, false) == a + OnePass(b, true, false)
    decreases |a|
  {
    assert (a + b)[0] == a[0] && (a + b)[1..] == a[1..] + b;
    if |a| > 1 {
      OnePassAppend(a[1..], b, true);
      assert a == [a[0]] + a[1..];
    }
  }

  /** Leading spaces only leave an underscore pending, and only once
      something has been copied. */
  lemma {:induction false} OnePassSpacesPrefix(n: nat, x: string, emitted: bool, pending: bool)
    ensures OnePass(Spaces(n) + x, emitted, pending) == OnePass(x, emitted, pending || (emitted && n > 0))
    decreases n
  {
    if n > 0 {
      var s := Spaces(n) + x;
      assert s[0] == ' ' && s[1..] == Spaces(n - 1) + x;
      OnePassSpacesPrefix(n - 1, x, emitted, pending || emitted);
    } else {
      assert Spaces(n) + x == x;
    }
  }

  lemma OnePassJoinsWords(a: string, n: nat, b: string)
    requires AllWord(a) && AllWord(b) && |a| > 0 && |b| > 0 && n > 0
    ensures OnePass(a + (Spaces(n) + b), false, false) == a + "_" + b
  {
    OnePassAppend(a, Spaces(n) + b, false);
    OnePassSpacesPrefix(n, b, true, false);
    OnePassWordStep(b, true, true);
    OnePassOfWord(b[1..], true);
    assert b == [b[0]] + b[1..];
  }

  /** A run of spaces between two words becomes one underscore. */
  lemma SanitizeJoinsWords(a: string, n: nat, b: string)
    requires AllWord(a) && AllWord(b) && |a| > 0 && |b| > 0 && n > 0
    ensures SanitizeName(a + Spaces(n) + b) == a + "_" + b
  {
    assert a + Spaces(n) + b == a + (Spaces(n) + b);
    OnePassJoinsWords(a, n, b);
  }

  /** Spaces around a word leave no trace. */
  lemma SanitizeDropsOuterSpaces(n: nat, a: string, m: nat)
    requires AllWord(a)
    ensures SanitizeName(Spaces(n) + a + Spaces(m)) == a
  {
    var s := Spaces(n) + a + Spaces(m);
    assert s == Spaces(n) + (a + Spaces(m));
    OnePassSpacesPrefix(n, a + Spaces(m), false, false);
    if |a| > 0 {
      OnePassAppend(a, Spaces(m), false);
      OnePassSpacesPrefix(m, "", true, false);
      assert Spaces(m) + "" == Spaces(m);
      assert a + "" == a;
    } else {
      assert a + Spaces(m) == Spaces(m) + "";
      OnePassSpacesPrefix(m, "", false, false);
    }
  }
}
