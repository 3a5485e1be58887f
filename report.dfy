/**
 * What `grep_file` prints (docgrep.py:96-103): one line per match, the file name, the
 * match's line number in decimal and the docstring's raw text, as
 * `'{}:{}: {}'.format(filename, start[0], docstring)`. The column is not printed.
 * Opening and decoding the file and lexing its text are not part of this model: the
 * file's tokens are an input, and the printed lines are returned in order.
 */
module Report {
  import opened Strings
  import opened Scan

  predicate IsDigit(c: char) {
    '0' <= c <= '9'
  }

  predicate AllDigits(s: string) {
    forall i :: 0 <= i < |s| ==> IsDigit(s[i])
  }

  function DigitChar(d: nat): (c: char)
    requires d < 10
    ensures IsDigit(c) && c as int - '0' as int == d
  {
    (d + '0' as int) as char
  }

  /** `str(n)` for a non-negative integer: its decimal digits, without leading zeros. */
  function DecimalString(n: nat): (s: string)
    ensures |s| > 0 && AllDigits(s)
    ensures s[0] == '0' ==> n == 0 && s == "0"
    decreases n
  {
    if n < 10 then [DigitChar(n)] else DecimalString(n / 10) + [DigitChar(n % 10)]
  }

  /** The number a string of decimal digits denotes. */
  function DecimalValue(s: string): nat
    requires AllDigits(s)
  {
    if s == [] then 0 else 10 * DecimalValue(s[..|s| - 1]) + (s[|s| - 1] as int - '0' as int)
  }

  /** Reading back the digits of str(n) gives n. */
  lemma {:induction false} DecimalRoundTrip(n: nat)
    ensures DecimalValue(DecimalString(n)) == n
    decreases n
  {
    if n >= 10 {
      DecimalRoundTrip(n / 10);
      var s := DecimalString(n);
      assert s[..|s| - 1] == DecimalString(n / 10);
    }
  }

  /** The number of leading decimal digits of s. */
  function DigitRun(s: string): (k: nat)
    ensures k <= |s| && AllDigits(s[..k])
    ensures k < |s| ==> !IsDigit(s[k])
  {
    if s == [] || !IsDigit(s[0]) then 0
    else
      var k := 1 + DigitRun(s[1..]);
      assert s[..k] == [s[0]] + s[1..][..k - 1];
      k
  }

  /** A run of digits followed by a non-digit: the run is exactly the digits. */
  lemma {:induction false} DigitRunOfDigits(a: string, b: string)
    requires AllDigits(a) && b != [] && !IsDigit(b[0])
    ensures DigitRun(a + b) == |a|
    decreases |a|
  {
    if a == [] {
      assert a + b == b;
    } else {
      assert (a + b)[1..] == a[1..] + b;
      DigitRunOfDigits(a[1..], b);
    }
  }

  /** Reads `digits: text` back into the number and the text. */
  function ParseNumbered(rest: string): Option<(nat, string)> {
    var k := DigitRun(rest);
    if k == 0 || !StartsWith(rest[k..], ": ") then None
    else Some((DecimalValue(rest[..k]), rest[k + 2..]))
  }

  /**
   * Reads a line of `filename`'s output back into its line number and docstring text:
   * the reference against which FormatLine is checked.
   */
  function ParseLine(filename: string, line: string): Option<(nat, string)> {
    var head := filename + ":";
    if StartsWith(line, head) then ParseNumbered(line[|head|..]) else None
  }

  lemma ParseNumberedRoundTrip(n: nat, text: string)
    ensures ParseNumbered(DecimalString(n) + ": " + text) == Some((n, text))
  {
    var digits := DecimalString(n);
    var rest := digits + (": " + text);
    assert rest == digits + ": " + text;
    DigitRunOfDigits(digits, ": " + text);
    assert rest[..|digits|] == digits;
    assert rest[|digits|..] == ": " + text;
    assert (": " + text)[..2] == ": ";
    assert (": " + text)[2..] == text;
    DecimalRoundTrip(n);
  }

  /**
   * One output line, `'{}:{}: {}'.format(filename, start[0], docstring)`. Reading it back
   * gives the match's line number and text; the column is not printed. The number has no
   * leading zero: a `0` right after the file name's colon is the whole number.
   */
  function FormatLine(filename: string, m: Match): (line: string)
    ensures ParseLine(filename, line) == Some((m.line, m.text))
    ensures |line| >= |filename| + 4
    ensures line[|filename| + 1] == '0' ==> m.line == 0 && line[|filename| + 2] == ':'
  {
    var head := filename + ":";
    var rest := DecimalString(m.line) + ": " + m.text;
    var line := filename + ":" + DecimalString(m.line) + ": " + m.text;
    assert line == head + rest;
    assert line[..|head|] == head;
    assert line[|head|..] == rest;
    ParseNumberedRoundTrip(m.line, m.text);
    line
  }

  /** Two matches print the same line for a file only if they share line number and text. */
  lemma FormatLineInjective(filename: string, m1: Match, m2: Match)
    requires FormatLine(filename, m1) == FormatLine(filename, m2)
    ensures m1.line == m2.line && m1.text == m2.text
  {
    assert ParseLine(filename, FormatLine(filename, m1)) == Some((m1.line, m1.text));
    assert ParseLine(filename, FormatLine(filename, m2)) == Some((m2.line, m2.text));
  }

  /**
   * `grep_file` (docgrep.py:96-103) after the file is read: scan its tokens and print
   * one formatted line per match, in the order the scan yields them.
   */
  method GrepFile(filename: string, tokens: seq<Token>, term: string) returns (lines: seq<string>)
    ensures |lines| == |Matches(tokens, term, None, true)|
    ensures forall j :: 0 <= j < |lines| ==> lines[j] == FormatLine(filename, Matches(tokens, term, None, true)[j])
  {
    var found := Grep(tokens, term);
    lines := [];
    for i := 0 to |found|
      invariant |lines| == i
      invariant forall j :: 0 <= j < i ==> lines[j] == FormatLine(filename, found[j])
    {
      lines := lines + [FormatLine(filename, found[i])];
    }
  }
}
