/**
  The text normaliser behind alert fingerprints: digit runs become one '#',
  ASCII letters become lower case, and white space collapses and is trimmed.
 */
module Fingerprint {

  predicate IsDigit(c: char) {
    '0' <= c <= '9'
  }

  function Lower(c: char): char {
    if 'A' <= c <= 'Z' then (c as int + 32) as char else c
  }

  /** The Unicode White_Space property. */
  predicate IsSpace(c: char) {
    || '\U{9}' <= c <= '\U{D}' || c == ' ' || c == '\U{85}' || c == '\U{A0}' || c == '\U{1680}'
    || '\U{2000}' <= c <= '\U{200A}' || c == '\U{2028}' || c == '\U{2029}' || c == '\U{202F}'
    || c == '\U{205F}' || c == '\U{3000}'
  }

  // ---------- The scan ----------

  /** The output so far and the two flags of the loop. */
  datatype Scan = Scan(output: string, afterSpace: bool, inDigits: bool)

  function Step(s: Scan, c: char): Scan {
    if IsDigit(c) then
      Scan(if s.inDigits then s.output else s.output + ['#'], false, true)
    else if IsSpace(Lower(c)) then
      Scan(if s.afterSpace then s.output else s.output + [' '], true, false)
    else
      Scan(s.output + [Lower(c)], false, false)
  }

  function ScanAll(s: Scan, text: string): Scan {
    if |text| == 0 then s
    else Step(ScanAll(s, text[..|text| - 1]), text[|text| - 1])
  }

  const START := Scan("", false, false)

  function TrimStart(text: string): string {
    if |text| > 0 && IsSpace(text[0]) then TrimStart(text[1..]) else text
  }

  function TrimEnd(text: string): string {
    if |text| > 0 && IsSpace(text[|text| - 1]) then TrimEnd(text[..|text| - 1]) else text
  }

  function Trim(text: string): string {
    TrimEnd(TrimStart(text))
  }

  function Normalize(text: string): string {
    Trim(ScanAll(START, text).output)
  }

  /** The loop, with its growing string and its flags. */
  method NormalizeFingerprint(input: string) returns (normalized: string)
    ensures normalized == Normalize(input)
  {
    normalized := "";
    var previousWasSpace, inDigitRun := false, false;
    for i := 0 to |input|
      invariant Scan(normalized, previousWasSpace, inDigitRun) == ScanAll(START, input[..i])
    {
      var ch := input[i];
      assert input[..i + 1][..i] == input[..i];
      if IsDigit(ch) {
        if !inDigitRun {
          normalized := normalized + ['#'];
          inDigitRun := true;
        }
        previousWasSpace := false;
        continue;
      }
      inDigitRun := false;
      var mapped := Lower(ch);
      if IsSpace(mapped) {
        if !previousWasSpace {
          normalized := normalized + [' '];
          previousWasSpace := true;
        }
      } else {
        previousWasSpace := false;
        normalized := normalized + [mapped];
      }
    }
    assert input[..|input|] == input;
    normalized := Trim(normalized);
  }

  // ---------- Normal forms ----------

  /** A character that normalising leaves alone. */
  predicate IsPlain(c: char) {
    !IsDigit(c) && !('A' <= c <= 'Z') && (IsSpace(c) ==> c == ' ')
  }

  predicate NoDoubleSpace(text: string) {
    forall i :: 0 < i < |text| ==> !(text[i - 1] == ' ' && text[i] == ' ')
  }

  predicate NoOuterSpace(text: string) {
    |text| > 0 ==> text[0] != ' ' && text[|text| - 1] != ' '
  }

  /** No ASCII digit or capital, no white space but single inner blanks. */
  predicate IsNormal(text: string) {
    (forall i :: 0 <= i < |text| ==> IsPlain(text[i])) && NoDoubleSpace(text) && NoOuterSpace(text)
  }

  /** Plain text without double blanks: what the scan produces before trimming. */
  predicate IsCollapsed(text: string) {
    (forall i :: 0 <= i < |text| ==> IsPlain(text[i])) && NoDoubleSpace(text)
  }

  lemma {:induction false} ScanCollapses(text: string)
    ensures var s := ScanAll(START, text);
            IsCollapsed(s.output) && (s.afterSpace <==> s.output != [] && s.output[|s.output| - 1] == ' ')
  {
    if |text| > 0 {
      ScanCollapses(text[..|text| - 1]);
    }
  }

  lemma {:induction false} TrimStartRemovesBlank(text: string)
    requires IsCollapsed(text)
    ensures TrimStart(text) == if text != [] && text[0] == ' ' then text[1..] else text
  {
    if text != [] && text[0] == ' ' {
      assert text[1..] != [] ==> text[1..][0] != ' ';
      assert TrimStart(text[1..]) == text[1..];
    }
  }

  lemma {:induction false} TrimEndRemovesBlank(text: string)
    requires IsCollapsed(text)
    ensures TrimEnd(text) == if text != [] && text[|text| - 1] == ' ' then text[..|text| - 1] else text
  {
    if text != [] && text[|text| - 1] == ' ' {
      var rest := text[..|text| - 1];
      assert rest != [] ==> rest[|rest| - 1] != ' ';
      assert TrimEnd(rest) == rest;
    }
  }

  lemma NormalizeIsNormal(text: string)
    ensures IsNormal(Normalize(text))
  {
    ScanCollapses(text);
    hide ScanAll, Trim, IsCollapsed, IsNormal;
    TrimmedIsNormal(ScanAll(START, text).output);
  }

  lemma PartIsCollapsed(text: string, i: nat, j: nat)
    requires IsCollapsed(text) && i <= j <= |text|
    ensures IsCollapsed(text[i..j])
  {
    hide IsPlain;
    assert forall k :: 0 <= k < j - i ==> text[i..j][k] == text[i + k];
  }

  lemma TrimmedIsNormal(text: string)
    requires IsCollapsed(text)
    ensures IsNormal(Trim(text))
  {
    hide IsPlain, TrimStart, TrimEnd;
    TrimStartRemovesBlank(text);
    var rest, n := TrimStart(text), |text| - |TrimStart(text)|;
    assert rest == text[n..|text|];
    PartIsCollapsed(text, n, |text|);
    assert |text| > 1 ==> !(text[0] == ' ' && text[1] == ' ');
    assert rest != [] ==> rest[0] != ' ';
    TrimEndRemovesBlank(rest);
    PartIsCollapsed(rest, 0, |Trim(text)|);
    assert |rest| > 1 ==> rest[|rest| - 2] != ' ' || rest[|rest| - 1] != ' ';
  }

  lemma {:induction false} ScanOfCollapsed(text: string)
    requires IsCollapsed(text)
    ensures var s := ScanAll(START, text);
            && s.output == text && !s.inDigits
            && (s.afterSpace <==> text != [] && text[|text| - 1] == ' ')
  {
    if |text| > 0 {
      ScanOfCollapsed(text[..|text| - 1]);
      assert text[..|text| - 1] + [text[|text| - 1]] == text;
    }
  }

  /** The texts that normalising leaves alone are exactly the normal forms. */
  lemma NormalFormsAreFixed(text: string)
    ensures Normalize(text) == text <==> IsNormal(text)
  {
    NormalizeIsNormal(text);
    if IsNormal(text) {
      ScanOfCollapsed(text);
      TrimStartRemovesBlank(text);
      TrimEndRemovesBlank(text);
    }
  }

  lemma NormalizeIsIdempotent(text: string)
    ensures Normalize(Normalize(text)) == Normalize(text)
  {
    NormalizeIsNormal(text);
    NormalFormsAreFixed(Normalize(text));
  }

  // ---------- Run by run ----------

  /** The length of the run of digits, or of white space, that the text starts with. */
  function RunLength(text: string): (n: nat)
    ensures n <= |text|
    ensures |text| > 0 && (IsDigit(text[0]) || IsSpace(text[0])) ==> n > 0
    ensures forall i :: 0 <= i < n ==> IsDigit(text[i]) == IsDigit(text[0]) && IsSpace(text[i]) == IsSpace(text[0])
    ensures 0 < n < |text| ==> IsDigit(text[n]) != IsDigit(text[0]) || IsSpace(text[n]) != IsSpace(text[0])
  {
    if |text| == 0 || !(IsDigit(text[0]) || IsSpace(text[0])) then 0
    else if |text| > 1 && IsDigit(text[1]) == IsDigit(text[0]) && IsSpace(text[1]) == IsSpace(text[0])
      then 1 + RunLength(text[1..])
    else 1
  }

  /** What a run, or another character, becomes. */
  function Mark(c: char): char {
    if IsDigit(c) then '#' else if IsSpace(c) then ' ' else Lower(c)
  }

  /** Where the text's first run ends; any other character stands alone. */
  function Cut(text: string): (n: nat)
    requires |text| > 0
    ensures 0 < n <= |text|
  {
    if IsDigit(text[0]) || IsSpace(text[0]) then RunLength(text) else 1
  }

  /** The text with each whole run replaced at once, without any flags. */
  function Collapse(text: string): string
    decreases |text|
  {
    if |text| == 0 then [] else [Mark(text[0])] + Collapse(text[Cut(text)..])
  }

  lemma CutIsRun(text: string)
    requires |text| > 0
    ensures var run := text[..Cut(text)]; IsDigitRun(run) || IsSpaceRun(run) || |run| == 1
    ensures Cut(text) < |text| ==>
              && !(IsDigit(text[0]) && IsDigit(text[Cut(text)]))
              && !(IsSpace(text[0]) && IsSpace(text[Cut(text)]))
  {
  }

  /** What one whole run, or one other character, does to a scan that is not inside such a run. */
  lemma ScanOfRun(s: Scan, run: string)
    requires IsDigitRun(run) || IsSpaceRun(run) || |run| == 1
    requires !(s.inDigits && IsDigit(run[0])) && !(s.afterSpace && IsSpace(run[0]))
    ensures ScanAll(s, run) == Scan(s.output + [Mark(run[0])], IsSpace(run[0]), IsDigit(run[0]))
  {
    if IsDigitRun(run) {
      ScanOfDigits(s, run);
    } else if IsSpaceRun(run) {
      ScanOfSpaces(s, run);
    } else {
      LowerIsNoSpace(run[0]);
      assert ScanAll(s, run[..0]) == s;
    }
  }

  lemma ScanOfNothing(s: Scan)
    ensures ScanAll(s, "") == s
  {
  }

  /** The flag-driven scan does what collapsing run by run does. */
  lemma {:induction false} ScanIsCollapse(s: Scan, text: string)
    requires |text| > 0 ==> !(s.inDigits && IsDigit(text[0])) && !(s.afterSpace && IsSpace(text[0]))
    ensures ScanAll(s, text).output == s.output + Collapse(text)
    decreases |text|
  {
    hide IsDigit, IsSpace, Mark, IsDigitRun, IsSpaceRun, Cut, ScanAll;
    if |text| == 0 {
      ScanOfNothing(s);
    } else {
      var n := Cut(text);
      CutIsRun(text);
      ScanConcat(s, text[..n], text[n..]);
      assert text == text[..n] + text[n..];
      ScanOfRun(s, text[..n]);
      ScanIsCollapse(ScanAll(s, text[..n]), text[n..]);
      assert s.output + [Mark(text[0])] + Collapse(text[n..]) == s.output + Collapse(text);
    }
  }

  lemma LowerIsNoSpace(c: char)
    ensures IsSpace(Lower(c)) <==> IsSpace(c)
  {
  }

  lemma NormalizeIsTrimmedCollapse(text: string)
    ensures Normalize(text) == Trim(Collapse(text))
  {
    ScanIsCollapse(START, text);
    assert START.output + Collapse(text) == Collapse(text);
  }

  // ---------- What the fingerprint keeps ----------

  /** The characters that are neither white space, nor digits, nor '#', in lower case. */
  function Words(text: string): string {
    if |text| == 0 then []
    else
      var rest := Words(text[..|text| - 1]);
      var c := text[|text| - 1];
      if IsSpace(c) || IsDigit(c) || c == '#' then rest else rest + [Lower(c)]
  }

  lemma {:induction false} ScanKeepsWords(text: string)
    ensures Words(ScanAll(START, text).output) == Words(text)
  {
    if |text| > 0 {
      var s := ScanAll(START, text[..|text| - 1]);
      var c := text[|text| - 1];
      ScanKeepsWords(text[..|text| - 1]);
      LowerIsNoSpace(c);
      assert forall d :: (s.output + [d])[..|s.output|] == s.output;
    }
  }

  lemma {:induction false} WordsAfterBlank(text: string)
    requires text != [] && text[0] == ' '
    ensures Words(text[1..]) == Words(text)
  {
    if |text| > 1 {
      WordsAfterBlank(text[..|text| - 1]);
      assert text[1..][..|text| - 2] == text[..|text| - 1][1..];
    } else {
      assert Words(text[..0]) == [];
    }
  }

  lemma TrimKeepsWords(text: string)
    requires IsCollapsed(text)
    ensures Words(Trim(text)) == Words(text)
  {
    hide IsPlain, TrimStart, TrimEnd;
    TrimStartRemovesBlank(text);
    var rest, n := TrimStart(text), |text| - |TrimStart(text)|;
    assert rest == text[n..|text|];
    PartIsCollapsed(text, n, |text|);
    TrimEndRemovesBlank(rest);
    if text != [] && text[0] == ' ' {
      WordsAfterBlank(text);
    }
    hide IsCollapsed;
  }

  /** Normalising loses no word character, so texts with different words have different normal forms. */
  lemma WordsAreKept(text: string)
    ensures Words(Normalize(text)) == Words(text)
  {
    ScanKeepsWords(text);
    ScanCollapses(text);
    hide ScanAll, Words, IsCollapsed, Trim;
    TrimKeepsWords(ScanAll(START, text).output);
  }

  // ---------- What the fingerprint ignores ----------

  lemma {:induction false} ScanConcat(s: Scan, a: string, b: string)
    ensures ScanAll(s, a + b) == ScanAll(ScanAll(s, a), b)
  {
    if |b| == 0 {
      assert a + b == a;
    } else {
      assert (a + b)[..|a + b| - 1] == a + b[..|b| - 1];
      ScanConcat(s, a, b[..|b| - 1]);
    }
  }

  lemma {:induction false} ScanIgnoresCase(s: Scan, a: string, b: string)
    requires |a| == |b| && forall i :: 0 <= i < |a| ==> Lower(a[i]) == Lower(b[i])
    ensures ScanAll(s, a) == ScanAll(s, b)
  {
    if |a| > 0 {
      var n := |a| - 1;
      ScanIgnoresCase(s, a[..n], b[..n]);
      assert Lower(a[n]) == Lower(b[n]);
    }
  }

  lemma CaseIsIgnored(a: string, b: string)
    requires |a| == |b| && forall i :: 0 <= i < |a| ==> Lower(a[i]) == Lower(b[i])
    ensures Normalize(a) == Normalize(b)
  {
    ScanIgnoresCase(START, a, b);
  }

  predicate IsDigitRun(text: string) {
    text != [] && forall i :: 0 <= i < |text| ==> IsDigit(text[i])
  }

  predicate IsSpaceRun(text: string) {
    text != [] && forall i :: 0 <= i < |text| ==> IsSpace(text[i])
  }

  lemma {:induction false} ScanOfDigits(s: Scan, run: string)
    requires IsDigitRun(run)
    ensures ScanAll(s, run) == Step(s, '0')
  {
    var n := |run| - 1;
    if n > 0 {
      ScanOfDigits(s, run[..n]);
    } else {
      assert ScanAll(s, run[..n]) == s;
    }
  }

  lemma {:induction false} ScanOfSpaces(s: Scan, run: string)
    requires IsSpaceRun(run)
    ensures ScanAll(s, run) == Step(s, ' ')
  {
    var n := |run| - 1;
    assert IsSpace(run[n]) && Lower(run[n]) == run[n];
    if n > 0 {
      ScanOfSpaces(s, run[..n]);
    } else {
      assert ScanAll(s, run[..n]) == s;
    }
  }

  /** Any nonempty digit run may stand for any other, wherever it stands. */
  lemma DigitsAreIgnored(before: string, a: string, b: string, after: string)
    requires IsDigitRun(a) && IsDigitRun(b)
    ensures Normalize(before + a + after) == Normalize(before + b + after)
  {
    forall run | IsDigitRun(run)
      ensures ScanAll(START, before + run + after) == ScanAll(Step(ScanAll(START, before), '0'), after)
    {
      ScanConcat(START, before + run, after);
      ScanConcat(START, before, run);
      ScanOfDigits(ScanAll(START, before), run);
    }
    assert IsDigitRun(a) && IsDigitRun(b);
  }

  /** Any nonempty run of white space may stand for any other. */
  lemma SpacingIsIgnored(before: string, a: string, b: string, after: string)
    requires IsSpaceRun(a) && IsSpaceRun(b)
    ensures Normalize(before + a + after) == Normalize(before + b + after)
  {
    forall run | IsSpaceRun(run)
      ensures ScanAll(START, before + run + after) == ScanAll(Step(ScanAll(START, before), ' '), after)
    {
      ScanConcat(START, before + run, after);
      ScanConcat(START, before, run);
      ScanOfSpaces(ScanAll(START, before), run);
    }
    assert IsSpaceRun(a) && IsSpaceRun(b);
  }

  /** A blank before the text shows only as a leading blank of the scan. */
  lemma {:induction false} ScanAfterBlank(text: string)
    ensures var s := ScanAll(Step(START, ' '), text);
            var t := ScanAll(START, text);
            && s.inDigits == t.inDigits
            && ((s.output == [' '] + t.output && s.afterSpace == (t.afterSpace || t.output == []))
                || (t.output != [] && t.output[0] == ' ' && s == t))
  {
    if |text| == 0 {
      assert Step(START, ' ').output == [' '];
    } else {
      ScanAfterBlank(text[..|text| - 1]);
      ScanCollapses(text[..|text| - 1]);
    }
  }

  /** White space around the text does not matter. */
  lemma OuterSpacingIsIgnored(before: string, text: string, after: string)
    requires IsSpaceRun(before) || before == []
    requires IsSpaceRun(after) || after == []
    ensures Normalize(before + text + after) == Normalize(text)
  {
    var t := ScanAll(START, text);
    ScanCollapses(text);
    if before == [] {
      assert before + text == text;
    } else {
      ScanConcat(START, before, text);
      ScanOfSpaces(START, before);
      ScanAfterBlank(text);
      ScanCollapses(before + text);
    }
    var s := ScanAll(START, before + text);
    LeadingBlankIsTrimmed(s.output, t.output);
    if after == [] {
      assert before + text + after == before + text;
    } else {
      ScanConcat(START, before + text, after);
      ScanOfSpaces(s, after);
      ScanCollapses(before + text);
      ScanCollapses(before + text + after);
      TrailingBlankIsTrimmed(s.output, ScanAll(START, before + text + after).output);
    }
  }

  lemma LeadingBlankIsTrimmed(a: string, b: string)
    requires a == b || (a == [' '] + b && IsCollapsed(a))
    ensures Trim(a) == Trim(b)
  {
    if a == [' '] + b {
      TrimStartRemovesBlank(a);
      assert b != [] ==> a[1] == b[0] != ' ';
    }
  }

  lemma TrailingBlankIsTrimmed(a: string, b: string)
    requires IsCollapsed(a) && IsCollapsed(b) && (b == a || b == a + [' '])
    ensures Trim(a) == Trim(b)
  {
    TrimStartRemovesBlank(a);
    TrimStartRemovesBlank(b);
    if b == a + [' '] && a != [] {
      TrimEndRemovesBlank(TrimStart(a));
      TrimEndRemovesBlank(TrimStart(b));
      assert TrimStart(b) == TrimStart(a) + [' '];
    }
  }
}
