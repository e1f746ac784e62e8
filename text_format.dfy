/**
 * The text pieces the SVG writer is made of: decimal numbers as Rust's `{}`
 * prints a non-negative integer, and newline-terminated lines. Each writer
 * comes with the reader that undoes it, so that what a document says can be
 * stated by reading it back.
 */
module TextFormat {
  import opened Outcomes

  // ---------------------------------------------------------------------------
  // Decimal numbers
  // ---------------------------------------------------------------------------

  predicate IsDigit(ch: char)
  {
    '0' <= ch <= '9'
  }

  function DigitChar(d: nat): (ch: char)
    requires d < 10
    ensures IsDigit(ch)
  {
    ('0' as int + d) as char
  }

  /** The decimal form of `n`: digits only, no sign, no leading zero. */
  function Decimal(n: nat): (s: string)
    ensures |s| >= 1
    ensures forall i :: 0 <= i < |s| ==> IsDigit(s[i])
    ensures |s| > 1 ==> s[0] != '0'
  {
    if n < 10 then [DigitChar(n)] else Decimal(n / 10) + [DigitChar(n % 10)]
  }

  function DigitOf(ch: char): nat
    requires IsDigit(ch)
  {
    ch as int - '0' as int
  }

  /** The number a string of digits denotes. */
  function DigitsValue(s: string): nat
    requires forall i :: 0 <= i < |s| ==> IsDigit(s[i])
  {
    if s == [] then 0
    else DigitsValue(s[..|s| - 1]) * 10 + DigitOf(s[|s| - 1])
  }

  /** The length of the run of digits that `s` starts with. */
  function DigitRun(s: string): (n: nat)
    ensures n <= |s|
    ensures forall j :: 0 <= j < n ==> IsDigit(s[j])
    ensures n < |s| ==> !IsDigit(s[n])
  {
    if s == [] || !IsDigit(s[0]) then 0 else 1 + DigitRun(s[1..])
  }

  /** Reads a number off the front of `s`; the rest of `s` comes back with it. */
  function ReadNumber(s: string): Option<(nat, string)>
  {
    var n := DigitRun(s);
    if n == 0 then None else Some((DigitsValue(s[..n]), s[n..]))
  }

  lemma {:induction false} DecimalValue(n: nat)
    ensures DigitsValue(Decimal(n)) == n
  {
    if n >= 10 {
      DecimalValue(n / 10);
      var s := Decimal(n);
      assert s[..|s| - 1] == Decimal(n / 10);
    }
  }

  /** Reading back a printed number gives the number and leaves what followed it. */
  lemma ReadDecimal(n: nat, rest: string)
    requires rest == [] || !IsDigit(rest[0])
    ensures ReadNumber(Decimal(n) + rest) == Some((n, rest))
  {
    var d := Decimal(n);
    var s := d + rest;
    var m := DigitRun(s);
    assert forall j :: 0 <= j < |d| ==> s[j] == d[j];
    assert rest != [] ==> s[|d|] == rest[0];
    assert m == |d|;
    assert s[..m] == d && s[m..] == rest;
    DecimalValue(n);
  }

  // ---------------------------------------------------------------------------
  // Literal text and free text
  // ---------------------------------------------------------------------------

  /** What follows `lit` in `s`, when `s` starts with it. */
  function StripPrefix(s: string, lit: string): Option<string>
  {
    if |lit| <= |s| && s[..|lit|] == lit then Some(s[|lit|..]) else None
  }

  lemma StripLiteral(lit: string, rest: string)
    ensures StripPrefix(lit + rest, lit) == Some(rest)
  {
    assert (lit + rest)[..|lit|] == lit;
    assert (lit + rest)[|lit|..] == rest;
  }

  /** The length of the longest prefix of `s` without `stop`. */
  function RunBefore(s: string, stop: char): (n: nat)
    ensures n <= |s|
    ensures forall j :: 0 <= j < n ==> s[j] != stop
    ensures n < |s| ==> s[n] == stop
  {
    if s == [] || s[0] == stop then 0 else 1 + RunBefore(s[1..], stop)
  }

  /** Splits `s` before its first `stop`. */
  function ReadUntil(s: string, stop: char): (string, string)
  {
    var n := RunBefore(s, stop);
    (s[..n], s[n..])
  }

  lemma ReadText(text: string, stop: char, rest: string)
    requires stop !in text
    requires rest != [] && rest[0] == stop
    ensures ReadUntil(text + rest, stop) == (text, rest)
  {
    var s := text + rest;
    var m := RunBefore(s, stop);
    assert forall j :: 0 <= j < |text| ==> s[j] == text[j];
    assert s[|text|] == rest[0];
    assert m == |text|;
    assert s[..m] == text && s[m..] == rest;
  }

  // ---------------------------------------------------------------------------
  // Lines
  // ---------------------------------------------------------------------------

  /** Every line followed by `\n`. */
  function JoinLines(lines: seq<string>): string
  {
    if lines == [] then "" else lines[0] + "\n" + JoinLines(lines[1..])
  }

  /** The index of the first `\n` in `s`, or `|s|`. */
  function LineEnd(s: string): (i: nat)
    ensures i <= |s|
    ensures forall j :: 0 <= j < i ==> s[j] != '\n'
    ensures i < |s| ==> s[i] == '\n'
  {
    RunBefore(s, '\n')
  }

  /** The lines of `s`, each without its terminating `\n`. */
  function SplitLines(s: string): seq<string>
    decreases |s|
  {
    if s == [] then []
    else
      var i := LineEnd(s);
      if i == |s| then [s] else [s[..i]] + SplitLines(s[i + 1..])
  }

  ghost predicate NoNewlines(lines: seq<string>)
  {
    forall k :: 0 <= k < |lines| ==> '\n' !in lines[k]
  }

  lemma {:induction false} JoinLinesAppend(a: seq<string>, b: seq<string>)
    ensures JoinLines(a + b) == JoinLines(a) + JoinLines(b)
  {
    if a == [] {
      assert a + b == b;
    } else {
      assert (a + b)[1..] == a[1..] + b;
      JoinLinesAppend(a[1..], b);
    }
  }

  /** Splitting at the newlines gives back the lines that were joined. */
  lemma {:induction false} SplitJoinLines(lines: seq<string>)
    requires NoNewlines(lines)
    ensures SplitLines(JoinLines(lines)) == lines
  {
    if lines != [] {
      var line, rest := lines[0], JoinLines(lines[1..]);
      var s := JoinLines(lines);
      assert s == line + ("\n" + rest);
      ReadText(line, '\n', "\n" + rest);
      assert LineEnd(s) == |line|;
      assert s[..|line|] == line;
      assert s[|line| + 1..] == rest;
      assert NoNewlines(lines[1..]) by {
        forall k | 0 <= k < |lines[1..]| ensures '\n' !in lines[1..][k] {
          assert lines[1..][k] == lines[k + 1];
        }
      }
      SplitJoinLines(lines[1..]);
      assert lines == [line] + lines[1..];
    }
  }
}
