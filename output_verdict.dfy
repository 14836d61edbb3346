/**
 The success check applied to the standard output of `adb shell am instrument -w`:
 the whole text must match the Java regular expression

     .*?OK \([0-9]+ tests?\)\s*

 under `String.matches` with default flags. Java's default `.` matches any
 character except a line terminator, and `\s` is the ASCII class
 `[ \t\n\x0B\f\r]`.

 `Matches` is a hand-coded matcher that follows the regex piece by piece (the
 lazy `.*?` becomes a scan that tries the summary at the leftmost position
 first). `HasSuccessForm` is an independent, declarative description of the
 accepted language, and the contract of `Matches` says the two agree.
 */
module OutputVerdict {

  /** Characters Java's `.` refuses without DOTALL: `\n`, `\r`, NEL, LS and PS. */
  predicate IsLineTerminator(c: char) {
    c == '\n' || c == '\r' || c == '\U{85}' || c == '\U{2028}' || c == '\U{2029}'
  }

  /** Java's predefined class `\s` without UNICODE_CHARACTER_CLASS: `[ \t\n\x0B\f\r]`. */
  predicate IsRegexSpace(c: char) {
    c == ' ' || c == '\t' || c == '\n' || c == '\U{B}' || c == '\U{C}' || c == '\r'
  }

  /** The class `[0-9]`. */
  predicate IsAsciiDigit(c: char) {
    '0' <= c <= '9'
  }

  predicate NoLineTerminator(s: string) {
    forall i :: 0 <= i < |s| ==> !IsLineTerminator(s[i])
  }

  predicate AllRegexSpace(s: string) {
    forall i :: 0 <= i < |s| ==> IsRegexSpace(s[i])
  }

  predicate AllAsciiDigits(s: string) {
    forall i :: 0 <= i < |s| ==> IsAsciiDigit(s[i])
  }

  const SummaryOpen := "OK ("
  const TestWord := " test"

  /** Length of the longest run of ASCII digits at the start of `s` (the greedy `[0-9]+`). */
  function DigitRun(s: string): (n: nat)
    ensures n <= |s|
    ensures AllAsciiDigits(s[..n])
    ensures n < |s| ==> !IsAsciiDigit(s[n])
  {
    if |s| > 0 && IsAsciiDigit(s[0]) then 1 + DigitRun(s[1..]) else 0
  }

  /** ` tests?\)\s*` matched against all of `u`. */
  predicate CountSuffixMatches(u: string) {
    && |u| >= 6
    && u[..5] == TestWord
    && if u[5] == 's' then |u| >= 7 && u[6] == ')' && AllRegexSpace(u[7..])
       else u[5] == ')' && AllRegexSpace(u[6..])
  }

  /** `OK \([0-9]+ tests?\)\s*` matched against all of `t`. */
  predicate SummaryMatches(t: string) {
    && |t| >= 4
    && t[..4] == SummaryOpen
    && var n := DigitRun(t[4..]);
       n > 0 && CountSuffixMatches(t[4 + n..])
  }

  /**
   Some position `j` at or after `i` where the summary matches the rest of
   `s`, with only characters `.` accepts between `i` and `j`.
   */
  ghost predicate MatchableFrom(s: string, i: nat)
    requires i <= |s|
  {
    exists j :: i <= j <= |s| && NoLineTerminator(s[i..j]) && SummaryMatches(s[j..])
  }

  /** `.` accepts a stretch exactly when it accepts its first character and the rest. */
  lemma NoLineTerminatorCons(s: string, i: nat, j: nat)
    requires i < j <= |s|
    ensures NoLineTerminator(s[i..j]) <==> !IsLineTerminator(s[i]) && NoLineTerminator(s[i + 1..j])
  {
    assert s[i..j] == [s[i]] + s[i + 1..j];
  }

  /** One step of the lazy scan: match here, or step over one character and match later. */
  lemma MatchableFromStep(s: string, i: nat)
    requires i <= |s|
    ensures MatchableFrom(s, i) <==>
      SummaryMatches(s[i..]) || (i < |s| && !IsLineTerminator(s[i]) && MatchableFrom(s, i + 1))
  {
    if SummaryMatches(s[i..]) {
      assert NoLineTerminator(s[i..i]);
    } else if i < |s| && !IsLineTerminator(s[i]) && MatchableFrom(s, i + 1) {
      var j :| i + 1 <= j <= |s| && NoLineTerminator(s[i + 1..j]) && SummaryMatches(s[j..]);
      NoLineTerminatorCons(s, i, j);
    } else if MatchableFrom(s, i) {
      var j :| i <= j <= |s| && NoLineTerminator(s[i..j]) && SummaryMatches(s[j..]);
      NoLineTerminatorCons(s, i, j);
      assert false;
    }
  }

  /**
   The lazy `.*?` starting at position `i`: try the summary here, otherwise
   consume one character that `.` accepts and try again further right.
   */
  function MatchesFrom(s: string, i: nat): (r: bool)
    requires i <= |s|
    ensures r <==> MatchableFrom(s, i)
    decreases |s| - i
  {
    MatchableFromStep(s, i);
    if SummaryMatches(s[i..]) then true
    else if i < |s| && !IsLineTerminator(s[i]) then MatchesFrom(s, i + 1)
    else false
  }

  /**
   A way of cutting an output text into the parts the pattern names:
   leading text, the test count, singular or plural, trailing whitespace.
   */
  datatype Decomposition = Decomposition(leading: string, digits: string, plural: bool, trailing: string)
  {
    predicate Valid() {
      NoLineTerminator(leading) && |digits| > 0 && AllAsciiDigits(digits) && AllRegexSpace(trailing)
    }

    function Text(): string {
      leading + SummaryOpen + digits + TestWord + (if plural then "s" else "") + ")" + trailing
    }
  }

  /** The language of the success pattern, stated without any matching procedure. */
  ghost predicate HasSuccessForm(s: string) {
    exists d: Decomposition :: d.Valid() && d.Text() == s
  }

  /** A run of digits followed by a non-digit is exactly what `DigitRun` measures. */
  lemma DigitRunOfDigitsThen(digits: string, rest: string)
    requires AllAsciiDigits(digits)
    requires |rest| > 0 && !IsAsciiDigit(rest[0])
    ensures DigitRun(digits + rest) == |digits|
  {
    var s := digits + rest;
    var n := DigitRun(s);
    assert forall k :: 0 <= k < |digits| ==> s[k] == digits[k];
    assert s[|digits|] == rest[0];
  }

  /** The summary matcher accepts exactly the texts a valid decomposition with empty leading text produces. */
  lemma SummaryMatchesOfText(d: Decomposition)
    requires d.Valid()
    ensures SummaryMatches(d.Text()[|d.leading|..])
  {
    var sfx := if d.plural then "s" else "";
    var t := d.Text()[|d.leading|..];
    var u := TestWord + sfx + ")" + d.trailing;
    assert t == SummaryOpen + (d.digits + u);
    assert t[..4] == SummaryOpen;
    assert t[4..] == d.digits + u;
    DigitRunOfDigitsThen(d.digits, u);
    assert t[4 + |d.digits|..] == u;
    assert u[..5] == TestWord;
    if d.plural {
      assert u[5] == 's' && u[6] == ')';
      assert u[7..] == d.trailing;
    } else {
      assert u[5] == ')';
      assert u[6..] == d.trailing;
    }
  }

  /** The text after the digits, cut into ` test`, the optional `s` with `)`, and the trailing whitespace. */
  lemma CountSuffixDecomposes(u: string) returns (plural: bool, trailing: string)
    requires CountSuffixMatches(u)
    ensures u == TestWord + ((if plural then "s" else "") + ")") + trailing
    ensures AllRegexSpace(trailing)
  {
    plural := u[5] == 's';
    var k := if plural then 7 else 6;
    trailing := u[k..];
    assert u[5..k] == (if plural then "s" else "") + ")";
    assert u == u[..5] + u[5..k] + trailing;
  }

  /** Every text the summary matcher accepts has the literal structure of the pattern. */
  lemma SummaryDecomposes(leading: string, t: string) returns (d: Decomposition)
    requires NoLineTerminator(leading)
    requires SummaryMatches(t)
    ensures d.Valid() && d.Text() == leading + t && d.leading == leading
  {
    var n := DigitRun(t[4..]);
    var digits := t[4..4 + n];
    var u := t[4 + n..];
    assert t[4..][..n] == digits;
    assert t == SummaryOpen + digits + u;
    var plural, trailing := CountSuffixDecomposes(u);
    d := Decomposition(leading, digits, plural, trailing);
    var sfx := (if plural then "s" else "") + ")";
    calc {
      d.Text();
      leading + SummaryOpen + digits + TestWord + (if plural then "s" else "") + ")" + trailing;
      leading + (SummaryOpen + digits + (TestWord + sfx + trailing));
      leading + t;
    }
  }

  lemma MatchableHasSuccessForm(s: string)
    requires MatchableFrom(s, 0)
    ensures HasSuccessForm(s)
  {
    var j :| 0 <= j <= |s| && NoLineTerminator(s[0..j]) && SummaryMatches(s[j..]);
    assert s[0..j] == s[..j];
    var d := SummaryDecomposes(s[..j], s[j..]);
    assert s == s[..j] + s[j..];
    assert d.Valid() && d.Text() == s;
  }

  lemma SuccessFormMatchable(d: Decomposition)
    requires d.Valid()
    ensures MatchableFrom(d.Text(), 0)
  {
    var s := d.Text();
    var j := |d.leading|;
    SummaryMatchesOfText(d);
    assert s[0..j] == d.leading;
  }

  /** The lazy scan from the start finds a summary exactly when the text has success form. */
  lemma MatchableIffSuccessForm(s: string)
    ensures MatchableFrom(s, 0) <==> HasSuccessForm(s)
  {
    if MatchableFrom(s, 0) {
      MatchableHasSuccessForm(s);
    }
    if HasSuccessForm(s) {
      var d: Decomposition :| d.Valid() && d.Text() == s;
      SuccessFormMatchable(d);
    }
  }

  /**
   `s.matches(".*?OK \\([0-9]+ tests?\\)\\s*")`: the hand-coded matcher
   decides exactly the language of the pattern.
   */
  predicate Matches(s: string)
    ensures Matches(s) <==> HasSuccessForm(s)
  {
    MatchableIffSuccessForm(s);
    MatchesFrom(s, 0)
  }

  lemma SuccessFormAppendSpace(s: string, w: string)
    requires HasSuccessForm(s)
    requires AllRegexSpace(w)
    ensures HasSuccessForm(s + w)
  {
    var d: Decomposition :| d.Valid() && d.Text() == s;
    var d' := d.(trailing := d.trailing + w);
    assert d'.Valid();
    assert d'.Text() == s + w;
  }

  /** Trailing whitespace is absorbed by `\s*`: appending any amount keeps a passing output passing. */
  lemma AppendSpaceKeepsMatch(s: string, w: string)
    requires Matches(s)
    requires AllRegexSpace(w)
    ensures Matches(s + w)
  {
    SuccessFormAppendSpace(s, w);
  }

  lemma SuccessFormPrependLineText(p: string, s: string)
    requires NoLineTerminator(p)
    requires HasSuccessForm(s)
    ensures HasSuccessForm(p + s)
  {
    var d: Decomposition :| d.Valid() && d.Text() == s;
    var d' := d.(leading := p + d.leading);
    assert d'.Valid();
    assert d'.Text() == p + s;
  }

  /** `.*?` absorbs any leading text on the same line as the summary. */
  lemma PrependLineTextKeepsMatch(p: string, s: string)
    requires NoLineTerminator(p)
    requires Matches(s)
    ensures Matches(p + s)
  {
    SuccessFormPrependLineText(p, s);
  }

  /** The last character of an accepted text is `)` or trailing whitespace. */
  lemma LastCharOfSuccess(d: Decomposition)
    requires d.Valid()
    ensures |d.Text()| > 0
    ensures var t := d.Text(); t[|t| - 1] == ')' || IsRegexSpace(t[|t| - 1])
  {
    var t := d.Text();
    if |d.trailing| > 0 {
      assert t[|t| - 1] == d.trailing[|d.trailing| - 1];
    } else {
      assert t[|t| - 1] == ')';
    }
  }

  /** An accepted text that does not end in whitespace ends in `test)` or `tests)`. */
  lemma SecondLastCharOfSuccess(d: Decomposition)
    requires d.Valid()
    requires var t := d.Text(); !IsRegexSpace(t[|t| - 1])
    ensures var t := d.Text(); |t| >= 2 && (t[|t| - 2] == 's' || t[|t| - 2] == 't')
  {
    var t := d.Text();
    if |d.trailing| == 0 {
      var sfx := if d.plural then "s" else "";
      assert t == d.leading + SummaryOpen + d.digits + TestWord + sfx + ")";
      assert t[|t| - 2] == (if d.plural then 's' else 't');
    }
  }

  lemma SuccessFormAppendNonSpace(s: string, c: char)
    requires HasSuccessForm(s)
    requires !IsRegexSpace(c)
    ensures !HasSuccessForm(s + [c])
  {
    var d1: Decomposition :| d1.Valid() && d1.Text() == s;
    LastCharOfSuccess(d1);
    if d2: Decomposition :| d2.Valid() && d2.Text() == s + [c] {
      SecondLastCharOfSuccess(d2);
    }
  }

  /**
   Once the summary's `)` has been seen, only whitespace may follow: appending
   any other character to a passing output makes it fail.
   */
  lemma AppendNonSpaceBreaksMatch(s: string, c: char)
    requires Matches(s)
    requires !IsRegexSpace(c)
    ensures !Matches(s + [c])
  {
    SuccessFormAppendNonSpace(s, c);
  }

  /** No character of the summary line itself is a line terminator. */
  lemma SummaryHasNoLineTerminator(d: Decomposition)
    requires d.Valid()
    ensures NoLineTerminator(d.Text()[..|d.Text()| - |d.trailing|])
  {
    var sfx := if d.plural then "s" else "";
    var head := d.Text()[..|d.Text()| - |d.trailing|];
    var summary := SummaryOpen + d.digits + TestWord + sfx + ")";
    assert d.Text() == d.leading + summary + d.trailing;
    assert head == d.leading + summary;
    forall k | 0 <= k < |head|
      ensures !IsLineTerminator(head[k])
    {
      if k >= |d.leading| {
        var m := k - |d.leading|;
        assert head[k] == summary[m];
        if 4 <= m < 4 + |d.digits| {
          assert summary[m] == d.digits[m - 4];
        }
      }
    }
  }

  lemma SuccessFormLineTerminator(s: string, k: nat)
    requires HasSuccessForm(s)
    requires k < |s| && IsLineTerminator(s[k])
    ensures AllRegexSpace(s[k..])
  {
    var d: Decomposition :| d.Valid() && d.Text() == s;
    SummaryHasNoLineTerminator(d);
    var m := |s| - |d.trailing|;
    assert forall i :: 0 <= i < m ==> s[..m][i] == s[i];
    assert s == s[..m] + d.trailing;
    assert s[k..] == d.trailing[k - m..];
  }

  /**
   A line terminator can occur in a passing output only inside the trailing
   whitespace: everything from it to the end is whitespace. So an output whose
   summary line is preceded by other lines is rejected.
   */
  lemma LineTerminatorOnlyInTrailingSpace(s: string, k: nat)
    requires Matches(s)
    requires k < |s| && IsLineTerminator(s[k])
    ensures AllRegexSpace(s[k..])
  {
    SuccessFormLineTerminator(s, k);
  }

  /** Text on a later line than a line break (other than whitespace) makes the output fail. */
  lemma TextAfterLineBreakFails(s: string, k: nat, j: nat)
    requires k < j < |s|
    requires IsLineTerminator(s[k]) && !IsRegexSpace(s[j])
    ensures !Matches(s)
  {
    if HasSuccessForm(s) {
      SuccessFormLineTerminator(s, k);
    }
  }

  /** NEL, LINE SEPARATOR and PARAGRAPH SEPARATOR end a line for `.` but are not `\s`: any of them anywhere fails. */
  lemma UnicodeLineBreakRejects(s: string, k: nat)
    requires k < |s|
    requires s[k] == '\U{85}' || s[k] == '\U{2028}' || s[k] == '\U{2029}'
    ensures !Matches(s)
  {
    if HasSuccessForm(s) {
      SuccessFormLineTerminator(s, k);
    }
  }

  /** `OK (12 tests)` passes. */
  lemma PluralSummaryPasses()
    ensures Matches("OK (12 tests)")
  {
    var d := Decomposition("", "12", true, "");
    assert d.Text() == "OK (12 tests)";
    assert d.Valid();
  }

  /** `OK (1 test)` passes: the `s` is optional. */
  lemma SingularSummaryPasses()
    ensures Matches("OK (1 test)")
  {
    var d := Decomposition("", "1", false, "");
    assert d.Text() == "OK (1 test)";
    assert d.Valid();
  }

  /** Leading text on the summary line and a final line break are accepted. */
  lemma SummaryWithLeadingTextAndNewlinePasses()
    ensures Matches("Time: 0.5 OK (3 tests)\r\n")
  {
    var d := Decomposition("Time: 0.5 ", "3", true, "\r\n");
    assert d.Valid();
    assert d.Text() == "Time: 0.5 OK (3 tests)\r\n";
  }

  /** `FAILURES!!!` alone fails: it does not end in `)` or whitespace. */
  lemma FailuresBannerFails()
    ensures !Matches("FAILURES!!!")
  {
    if HasSuccessForm("FAILURES!!!") {
      var d: Decomposition :| d.Valid() && d.Text() == "FAILURES!!!";
      LastCharOfSuccess(d);
    }
  }

  /** A JUnit failure report fails. */
  lemma FailureReportFails()
    ensures !Matches("FAILURES!!!\nTests run: 3, Failures: 1")
  {
    TextAfterLineBreakFails("FAILURES!!!\nTests run: 3, Failures: 1", 11, 12);
  }

  /** Multi-line instrument output whose `OK (...)` line is not the first line fails. */
  lemma SummaryOnLaterLineFails()
    ensures !Matches("Test results for InstrumentationTestRunner=..\nOK (2 tests)")
  {
    TextAfterLineBreakFails("Test results for InstrumentationTestRunner=..\nOK (2 tests)", 45, 46);
  }
}
