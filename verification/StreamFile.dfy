/**
 * The append-only minute stream: where its last end marker is found, and so what a reader makes of
 * any prefix of the file.
 */
module StreamFile {
  import opened Basics
  import opened StreamText

  datatype Block = Block(minute: nat, rows: seq<string>)

  const MARKER := "#END "

  function EndLine(b: Block): string { MARKER + Digits(b.minute) + " " + Digits(|b.rows|) }

  function BlockLines(b: Block): seq<string> { b.rows + [EndLine(b)] }

  function AllLines(bs: seq<Block>): seq<string> {
    if bs == [] then [] else AllLines(bs[..|bs| - 1]) + BlockLines(bs[|bs| - 1])
  }

  function RowsOf(bs: seq<Block>): seq<string> {
    if bs == [] then [] else RowsOf(bs[..|bs| - 1]) + bs[|bs| - 1].rows
  }

  function MinutesOf(bs: seq<Block>): seq<nat> {
    if bs == [] then [] else MinutesOf(bs[..|bs| - 1]) + [bs[|bs| - 1].minute]
  }

  /** The file after its header and some blocks. */
  function FileText(header: string, bs: seq<Block>): string { Join([header] + AllLines(bs)) }

  // ---- Reading ----

  /** Everything up to and including the last line that starts with the end marker. */
  function Body(text: string): string {
    var e := RFind(text, "\n" + MARKER, |text|);
    if e < 0 then "" else
      var n := FindNewline(text, e + 1);
      if n < |text| then text[..n + 1] else text
  }

  function FirstField(line: string): string {
    if line == "" || line[0] == ',' then "" else [line[0]] + FirstField(line[1..])
  }

  function FieldCount(line: string): nat {
    if line == "" then 1 else (if line[0] == ',' then 1 else 0) + FieldCount(line[1..])
  }

  datatype Reading = Reading(header: Option<string>, rows: seq<string>, minutes: seq<nat>)

  function ReadLine(r: Reading, line: string): Reading {
    if line == "" then r
    else if "#END" <= line then
      var word := SecondWord(FirstField(line));
      if AllDigits(word) then r.(minutes := r.minutes + [Value(word)]) else r
    else if r.header.None? then r.(header := Some(line))
    else if line == r.header.value || FieldCount(line) != FieldCount(r.header.value) then r
    else r.(rows := r.rows + [line])
  }

  function ReadLines(r: Reading, lines: seq<string>): Reading {
    if lines == [] then r else ReadLine(ReadLines(r, lines[..|lines| - 1]), lines[|lines| - 1])
  }

  const Nothing := Reading(None, [], [])

  function Read(text: string): Reading { ReadLines(Nothing, SplitLines(Body(text))) }

  // ---- Finding the last end marker ----

  /** The last line after the first that starts with the marker, or -1. */
  function LastMarked(lines: seq<string>): (j: int)
    ensures -1 <= j < |lines| && j != 0
  {
    if |lines| <= 1 then -1
    else if MARKER <= lines[|lines| - 1] then |lines| - 1
    else LastMarked(lines[..|lines| - 1])
  }

  lemma {:induction false} LastMarkedExact(lines: seq<string>)
    ensures var j := LastMarked(lines);
            (j > 0 ==> MARKER <= lines[j]) &&
            forall i :: j < i < |lines| && i > 0 ==> !(MARKER <= lines[i])
  {
    if |lines| > 1 && !(MARKER <= lines[|lines| - 1]) {
      LastMarkedExact(lines[..|lines| - 1]);
      var init := lines[..|lines| - 1];
      assert forall i :: 0 <= i < |init| ==> init[i] == lines[i];
    }
  }

  function Unfinished(last: string): seq<string> { if last == "" then [] else [last] }

  /** Where a line starts in the text. */
  function Offset(full: seq<string>, i: nat): nat
    requires i <= |full|
  {
    |Join(full[..i])|
  }

  lemma {:induction false} OffsetsRise(full: seq<string>, i: nat, j: nat)
    requires i < j <= |full|
    ensures Offset(full, i) + |full[j - 1]| < Offset(full, j)
  {
    assert full[..j] == full[..j - 1] + [full[j - 1]];
    JoinConcat(full[..j - 1], [full[j - 1]]);
    assert Join([full[j - 1]]) == full[j - 1] + "\n" + Join([]);
    if i < j - 1 { OffsetsRise(full, i, j - 1); }
  }

  /** What follows the start of line `i`. */
  lemma TextFrom(full: seq<string>, last: string, i: nat)
    requires i <= |full|
    ensures Offset(full, i) <= |Join(full) + last|
    ensures (Join(full) + last)[Offset(full, i)..] == Join(full[i..]) + last
    ensures i > 0 ==> Offset(full, i) > 0 && (Join(full) + last)[Offset(full, i) - 1] == '\n'
  {
    assert full == full[..i] + full[i..];
    JoinConcat(full[..i], full[i..]);
    if i > 0 { EndsWithNewline(full[..i]); }
    hide Join;
    var a, b := Join(full[..i]), Join(full[i..]);
    Behind(a, b, last);
  }

  lemma Behind(a: string, b: string, last: string)
    ensures (a + b + last)[|a|..] == b + last
    ensures a != "" ==> (a + b + last)[|a| - 1] == a[|a| - 1]
  {
  }

  lemma EndsWithNewline(lines: seq<string>)
    requires lines != []
    ensures Join(lines) != "" && Join(lines)[|Join(lines)| - 1] == '\n'
  {
    var init, line := lines[..|lines| - 1], lines[|lines| - 1];
    assert lines == init + [line];
    JoinConcat(init, [line]);
    assert Join([line]) == line + "\n" + Join([]);
  }

  /** A one-line pattern starts a text exactly when it starts the text's first line. */
  lemma StartsFirstLine(lines: seq<string>, last: string, pattern: string)
    requires AllOneLine(lines) && OneLine(last) && OneLine(pattern) && pattern != ""
    ensures pattern <= Join(lines) + last <==>
            var all := lines + Unfinished(last);
            all != [] && pattern <= all[0]
  {
    var text := Join(lines) + last;
    if lines != [] {
      var line := lines[0];
      assert text == line + "\n" + (Join(lines[1..]) + last);
      assert text[..|line|] == line && text[|line|] == '\n';
      if pattern <= text {
        assert forall i :: 0 <= i < |pattern| ==> pattern[i] == text[i];
        assert pattern == text[..|pattern|];
      }
    } else {
      assert text == last;
    }
  }

  lemma MarkerOneLine()
    ensures OneLine(MARKER) && |MARKER| == 5
  {
  }

  /** A newline followed by the marker is exactly the end of a line before a marked line. */
  lemma MarkedLine(full: seq<string>, last: string, i: nat)
    requires AllOneLine(full) && OneLine(last) && 0 < i <= |full|
    ensures var all := full + Unfinished(last);
            At(Join(full) + last, "\n" + MARKER, Offset(full, i) - 1) <==> i < |all| && MARKER <= all[i]
  {
    var text, all, o := Join(full) + last, full + Unfinished(last), Offset(full, i);
    TextFrom(full, last, i);
    MarkerOneLine();
    AllOneLineFrom(full, i);
    StartsFirstLine(full[i..], last, MARKER);
    assert full[i..] + Unfinished(last) == all[i..];
    hide Join, Offset, OneLine, AllOneLine;
    BehindNewline(text, o, MARKER);
  }

  lemma AllOneLineFrom(full: seq<string>, i: nat)
    requires AllOneLine(full) && i <= |full|
    ensures AllOneLine(full[i..])
  {
  }

  /** A pattern behind a newline. */
  lemma BehindNewline(text: string, o: nat, pattern: string)
    requires 0 < o <= |text| && text[o - 1] == '\n'
    ensures "\n" + pattern <= text[o - 1..] <==> pattern <= text[o..]
  {
    var n := |pattern|;
    assert text[o - 1..] == ['\n'] + text[o..];
    if "\n" + pattern <= text[o - 1..] {
      assert text[o - 1..][..n + 1] == ['\n'] + text[o..][..n];
      assert text[o..][..n] == ("\n" + pattern)[1..];
    }
    if pattern <= text[o..] {
      assert text[o - 1..][..n + 1] == ['\n'] + text[o..][..n];
    }
  }

  /** A found marker is the start of some marked line. */
  lemma MarkerStartsLine(full: seq<string>, last: string, e: nat) returns (i: nat)
    requires AllOneLine(full) && OneLine(last)
    requires e < |Join(full) + last| && At(Join(full) + last, "\n" + MARKER, e)
    ensures 0 < i <= |full| && e == Offset(full, i) - 1
    ensures var all := full + Unfinished(last); i < |all| && MARKER <= all[i]
  {
    var text := Join(full) + last;
    assert text[e] == text[e..][0] == '\n';
    var ended := NewlineEndsLine(full, last, e);
    i := ended + 1;
    MarkedLine(full, last, i);
  }

  /** The search from the right stops at the last marked line. */
  lemma FoundMarker(full: seq<string>, last: string)
    requires AllOneLine(full) && OneLine(last)
    ensures var text, j := Join(full) + last, LastMarked(full + Unfinished(last));
            var e := RFind(text, "\n" + MARKER, |text|);
            if j < 0 then e < 0 else j <= |full| && e == Offset(full, j) - 1
  {
    hide At, Offset, OneLine, AllOneLine;
    var text, all := Join(full) + last, full + Unfinished(last);
    var e, j := RFind(text, "\n" + MARKER, |text|), LastMarked(all);
    LastMarkedExact(all);
    if e >= 0 {
      var i := MarkerStartsLine(full, last, e);
      assert i <= j;
      if i < j { OffsetsRise(full, i, j); }
    }
    if j > 0 {
      MarkedLine(full, last, j);
      OffsetWithin(full, last, j);
    }
  }

  lemma OffsetWithin(full: seq<string>, last: string, j: nat)
    requires 0 < j <= |full|
    ensures 0 <= Offset(full, j) - 1 < |Join(full) + last|
  {
    TextFrom(full, last, j);
  }

  lemma NewlineAfter(text: string, o: nat, line: string, rest: string)
    requires o <= |text| && OneLine(line) && text[o..] == line + rest && (rest == "" || rest[0] == '\n')
    ensures FindNewline(text, o) == o + |line|
  {
    assert forall i :: 0 <= i < |line| ==> text[o + i] == text[o..][i] == line[i];
    assert forall k :: o <= k < o + |line| ==> text[k] == line[k - o];
    if rest != "" { assert text[o + |line|] == text[o..][|line|] == '\n'; }
  }

  lemma OffsetNext(full: seq<string>, j: nat)
    requires j < |full|
    ensures Offset(full, j + 1) == Offset(full, j) + |full[j]| + 1
  {
    assert full[..j + 1] == full[..j] + [full[j]];
    JoinConcat(full[..j], [full[j]]);
    assert Join([full[j]]) == full[j] + "\n" + Join([]);
  }

  lemma TextUpTo(full: seq<string>, last: string, i: nat)
    requires i <= |full|
    ensures Offset(full, i) <= |Join(full)| && (Join(full) + last)[..Offset(full, i)] == Join(full[..i])
  {
    assert full == full[..i] + full[i..];
    JoinConcat(full[..i], full[i..]);
  }

  lemma BodyToWholeLine(full: seq<string>, last: string, j: nat)
    requires AllOneLine(full) && OneLine(last) && 0 < j < |full|
    requires LastMarked(full + Unfinished(last)) == j
    ensures Body(Join(full) + last) == Join(full[..j + 1])
  {
    hide AllOneLine, LastMarked, Offset, Join;
    var text, o := Join(full) + last, Offset(full, j);
    FoundMarker(full, last);
    TextFrom(full, last, j);
    var rest := "\n" + Join(full[j + 1..]) + last;
    JoinFrom(full, last, j);
    assert OneLine(full[j]) by { LineOf(full, j); }
    NewlineAfter(text, o, full[j], rest);
    OffsetNext(full, j);
    TextUpTo(full, last, j + 1);
  }

  lemma JoinFrom(full: seq<string>, last: string, j: nat)
    requires j < |full|
    ensures Join(full[j..]) + last == full[j] + ("\n" + Join(full[j + 1..]) + last)
  {
    assert full[j..] == [full[j]] + full[j + 1..];
  }

  lemma LineOf(full: seq<string>, j: nat)
    requires AllOneLine(full) && j < |full|
    ensures OneLine(full[j])
  {
  }

  lemma BodyToCutLine(full: seq<string>, last: string)
    requires AllOneLine(full) && OneLine(last) && last != ""
    requires LastMarked(full + Unfinished(last)) == |full|
    ensures Body(Join(full) + last) == Join(full) + last
  {
    var text, o := Join(full) + last, Offset(full, |full|);
    FoundMarker(full, last);
    TextFrom(full, last, |full|);
    assert full[|full|..] == [] && text[o..] == last + "";
    NewlineAfter(text, o, last, "");
  }

  /** The reader sees the lines up to the last marked one, the cut-off line included if it is marked. */
  lemma BodyLines(full: seq<string>, last: string)
    requires AllOneLine(full) && OneLine(last)
    ensures var all := full + Unfinished(last);
            SplitLines(Body(Join(full) + last)) == all[..LastMarked(all) + 1]
  {
    hide Join, Body, SplitLines, OneLine, LastMarked;
    var all := full + Unfinished(last);
    var j := LastMarked(all);
    FoundMarker(full, last);
    if 0 < j < |full| {
      BodyToWholeLine(full, last, j);
      AllOneLineTo(full, j + 1);
      SplitJoin(full[..j + 1], "");
      assert Join(full[..j + 1]) + "" == Join(full[..j + 1]);
      assert all[..j + 1] == full[..j + 1];
    } else if j > 0 {
      BodyToCutLine(full, last);
      SplitJoin(full, last);
      assert all[..j + 1] == all;
    } else {
      NothingMarked(Join(full) + last);
    }
  }

  lemma AllOneLineTo(full: seq<string>, i: nat)
    requires AllOneLine(full) && i <= |full|
    ensures AllOneLine(full[..i]) && OneLine("")
  {
  }

  lemma NothingMarked(text: string)
    requires RFind(text, "\n" + MARKER, |text|) < 0
    ensures SplitLines(Body(text)) == []
  {
  }
}
