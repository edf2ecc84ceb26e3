/**
 * Text as lines and as characters: joining and splitting lines, searching for a pattern, and reading
 * and writing decimal numbers.
 */
module StreamText {
  import opened Basics

  ghost predicate OneLine(s: string) { forall i :: 0 <= i < |s| ==> s[i] != '\n' }

  ghost predicate AllOneLine(lines: seq<string>) { forall i :: 0 <= i < |lines| ==> OneLine(lines[i]) }

  /** Lines, each ended by a newline. */
  function Join(lines: seq<string>): string {
    if lines == [] then "" else lines[0] + "\n" + Join(lines[1..])
  }

  /** The lines of a text; what follows the last newline is a line too unless it is empty. */
  function SplitLines(text: string): seq<string>
    decreases |text|
  {
    if text == "" then []
    else
      var n := FindNewline(text, 0);
      if n == |text| then [text] else [text[..n]] + SplitLines(text[n + 1..])
  }

  /** The first newline at or after a position, or the length of the text. */
  function FindNewline(text: string, from: nat): (i: nat)
    requires from <= |text|
    ensures from <= i <= |text|
    ensures i < |text| ==> text[i] == '\n'
    ensures forall j :: from <= j < i ==> text[j] != '\n'
    decreases |text| - from
  {
    if from == |text| || text[from] == '\n' then from else FindNewline(text, from + 1)
  }

  predicate At(text: string, pattern: string, i: nat) { i <= |text| && pattern <= text[i..] }

  /** `text.rfind(pattern)` among the positions before `before`: the greatest, or -1. */
  function RFind(text: string, pattern: string, before: nat): (i: int)
    ensures -1 <= i < before
    ensures i >= 0 ==> At(text, pattern, i)
    ensures forall j :: i < j < before ==> !At(text, pattern, j)
  {
    if before == 0 then -1
    else if At(text, pattern, before - 1) then before - 1
    else RFind(text, pattern, before - 1)
  }

  lemma {:induction false} JoinConcat(a: seq<string>, b: seq<string>)
    ensures Join(a + b) == Join(a) + Join(b)
  {
    if a == [] {
      assert a + b == b;
    } else {
      assert (a + b)[1..] == a[1..] + b;
      JoinConcat(a[1..], b);
    }
  }

  lemma FirstLine(line: string, rest: string)
    requires OneLine(line)
    ensures FindNewline(line + "\n" + rest, 0) == |line|
  {
    var text := line + "\n" + rest;
    var n := FindNewline(text, 0);
    assert text[|line|] == '\n';
    assert forall j :: 0 <= j < |line| ==> text[j] == line[j];
  }

  /** Splitting undoes joining, with an unfinished last line kept if there is one. */
  lemma {:induction false} SplitJoin(lines: seq<string>, last: string)
    requires AllOneLine(lines) && OneLine(last)
    ensures SplitLines(Join(lines) + last) == lines + (if last == "" then [] else [last])
  {
    var text := Join(lines) + last;
    if lines == [] {
      assert text == last;
    } else {
      var rest := Join(lines[1..]) + last;
      assert text == lines[0] + "\n" + rest;
      FirstLine(lines[0], rest);
      assert text[..|lines[0]|] == lines[0] && text[|lines[0]| + 1..] == rest;
      SplitJoin(lines[1..], last);
    }
  }

  /** Every prefix of joined lines is some whole lines and a prefix of the next one. */
  lemma {:induction false} PrefixOfJoin(lines: seq<string>, c: nat) returns (i: nat, last: string)
    requires AllOneLine(lines) && c <= |Join(lines)|
    ensures i <= |lines| && Join(lines)[..c] == Join(lines[..i]) + last && OneLine(last)
    ensures if i < |lines| then last <= lines[i] else last == ""
  {
    if lines == [] {
      i, last := 0, "";
    } else if c <= |lines[0]| {
      i, last := 0, lines[0][..c];
    } else {
      i, last := PrefixOfJoin(lines[1..], c - |lines[0]| - 1);
      var tail := lines[1..][..i];
      assert Join(lines)[..c] == lines[0] + "\n" + Join(lines[1..])[..c - |lines[0]| - 1];
      i := i + 1;
      assert lines[..i] == [lines[0]] + tail;
      assert lines[..i][1..] == tail;
    }
  }

  /** A newline in joined lines ends one of them. */
  lemma {:induction false} NewlineEndsLine(lines: seq<string>, last: string, e: nat) returns (i: nat)
    requires AllOneLine(lines) && OneLine(last) && e < |Join(lines) + last| && (Join(lines) + last)[e] == '\n'
    ensures i < |lines| && e + 1 == |Join(lines[..i + 1])|
  {
    var text := Join(lines) + last;
    assert Join([]) + last == last;
    var n := |lines[0]|;
    assert text == lines[0] + "\n" + (Join(lines[1..]) + last);
    assert forall j :: 0 <= j < n ==> text[j] == lines[0][j];
    if e <= n {
      i := 0;
      assert lines[..1] == [lines[0]] && Join(lines[..1]) == lines[0] + "\n" + Join([]);
    } else {
      i := NewlineEndsLine(lines[1..], last, e - n - 1);
      assert lines[..i + 2] == [lines[0]] + lines[1..][..i + 1];
      assert lines[..i + 2][1..] == lines[1..][..i + 1];
      i := i + 1;
    }
  }

  // ---- Decimal numbers ----

  predicate IsDigit(c: char) { '0' <= c <= '9' }

  /** `str.isdigit`: not empty and only digits. */
  predicate AllDigits(s: string) { s != "" && forall i :: 0 <= i < |s| ==> IsDigit(s[i]) }

  function Digits(n: nat): string {
    if n < 10 then [(n as char) + '0'] else Digits(n / 10) + [((n % 10) as char) + '0']
  }

  function Value(s: string): nat
    requires forall i :: 0 <= i < |s| ==> IsDigit(s[i])
  {
    if s == "" then 0
    else
      assert IsDigit(s[|s| - 1]);
      Value(s[..|s| - 1]) * 10 + (s[|s| - 1] as int - '0' as int)
  }

  lemma {:induction false} DigitsValue(n: nat)
    ensures AllDigits(Digits(n)) && Value(Digits(n)) == n
  {
    if n >= 10 {
      DigitsValue(n / 10);
      var s := Digits(n);
      assert s[..|s| - 1] == Digits(n / 10);
    } else {
      assert Digits(n)[..0] == "";
    }
  }

  /** A number cut short is a smaller number. */
  lemma {:induction false} CutNumber(n: nat, d: string)
    requires d <= Digits(n) && d != ""
    ensures AllDigits(d) && Value(d) <= n && (|d| < |Digits(n)| ==> 10 * Value(d) <= n)
  {
    DigitsValue(n);
    assert forall i :: 0 <= i < |d| ==> d[i] == Digits(n)[i];
    if |d| == |Digits(n)| {
      assert d == Digits(n);
    } else {
      assert d <= Digits(n / 10);
      CutNumber(n / 10, d);
    }
  }

  // ---- Words ----

  function SkipSpaces(s: string): string { if s != "" && s[0] == ' ' then SkipSpaces(s[1..]) else s }

  function Word(s: string): string { if s == "" || s[0] == ' ' then "" else [s[0]] + Word(s[1..]) }

  function AfterWord(s: string): string { if s == "" || s[0] == ' ' then s else AfterWord(s[1..]) }

  /** `s.split()[1]`, or the empty string if there is no second word. */
  function SecondWord(s: string): string { Word(SkipSpaces(AfterWord(SkipSpaces(s)))) }

  lemma {:induction false} WordOf(w: string, rest: string)
    requires (forall i :: 0 <= i < |w| ==> w[i] != ' ') && (rest == "" || rest[0] == ' ')
    ensures Word(w + rest) == w && AfterWord(w + rest) == rest
  {
    if w == "" {
      assert w + rest == rest;
    } else {
      assert (w + rest)[1..] == w[1..] + rest;
      WordOf(w[1..], rest);
    }
  }
}
